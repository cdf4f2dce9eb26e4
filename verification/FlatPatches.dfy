/** ApplyPatch on flat patches: what becomes of each field, and when the patch's value replaces the
    base's. */
module FlatPatches {
  import opened Wire
  import opened Codecs
  import opened CodecRoundTrip
  import opened CodecLaws
  import opened DeepMerging
  import opened Logs

  /** ApplyPatch: encode both sides, merge the patch over the base, decode with the base codec. */
  ghost function ApplyPatch(base: Value, baseCodec: Codec, patch: Value, patchCodec: Codec): Result<Value> {
    match Encode(baseCodec, base)
    case Err(e) => Err(e)
    case Ok(baseRaw) =>
      if !baseRaw.Obj? then Err(TypeMismatch)
      else
        match Encode(patchCodec, patch)
        case Err(e) => Err(e)
        case Ok(patchRaw) =>
          if !patchRaw.Obj? then Err(TypeMismatch) else Decode(baseCodec, Merge(baseRaw, patchRaw))
  }

  /** Partial field p patches field at[p] of the base: same key, same codec. */
  ghost predicate Targets(partials: seq<PartialField>, fields: seq<Field>, at: seq<int>) {
    && |at| == |partials|
    && forall p :: 0 <= p < |at| ==>
         0 <= at[p] < |fields| && fields[at[p]].name == partials[p].name && fields[at[p]].codec == partials[p].codec
  }

  lemma EncodedPartial(c: Codec, v: Value)
    requires c.PartialStruct? && Distinct(PartialNames(c.partials)) && Encode(c, v).Ok?
    ensures v.Rec? && |v.fields| == |c.partials| && Encode(c, v).value.Obj?
    ensures forall k :: k in Encode(c, v).value.m ==> k in PartialNames(c.partials)
    ensures forall p :: 0 <= p < |c.partials| ==>
      EncodePartial(c.partials[p], v.fields[p]) ==
        Ok(if c.partials[p].name in Encode(c, v).value.m then Present(Encode(c, v).value.m[c.partials[p].name]) else Absent)
  {
    var fs := c.partials;
    var rs := seq(|fs|, i requires 0 <= i < |fs| => EncodePartial(fs[i], v.fields[i]));
    CollectLookup(PartialNames(fs), seq(|rs|, i requires 0 <= i < |rs| && rs[i].Ok? => rs[i].value));
    forall i | 0 <= i < |fs|
      ensures EncodePartial(fs[i], v.fields[i]) ==
        Ok(if fs[i].name in Encode(c, v).value.m then Present(Encode(c, v).value.m[fs[i].name]) else Absent)
    {
      assert rs[i].Ok? && PartialNames(fs)[i] == fs[i].name;
    }
  }

  /** A base struct and a patch for some of its fields, both of which encode. */
  ghost predicate Patching(bc: Codec, base: Value, pc: Codec, patch: Value, at: seq<int>) {
    && bc.Struct? && Sound(bc) && Encode(bc, base).Ok?
    && pc.PartialStruct? && Sound(pc) && Encode(pc, patch).Ok?
    && Targets(pc.partials, bc.fields, at)
    && base.Rec? && |base.fields| == |bc.fields| && patch.Rec? && |patch.fields| == |at|
    && Encode(bc, base).value.Obj? && Encode(pc, patch).value.Obj?
  }

  /** What the base has on the wire where partial field p writes; nil if the field was omitted. */
  ghost function OldWire(bc: Codec, base: Value, pc: Codec, patch: Value, at: seq<int>, p: int): Json
    requires Patching(bc, base, pc, patch, at) && 0 <= p < |at|
  {
    At(Encode(bc, base).value.m, bc.fields[at[p]].name)
  }

  ghost function NewWire(bc: Codec, base: Value, pc: Codec, patch: Value, at: seq<int>, p: int): Json
    requires Patching(bc, base, pc, patch, at) && 0 <= p < |at| && patch.fields[p].Ptr?
  {
    At(Encode(pc, patch).value.m, pc.partials[p].name)
  }

  /** Field p of the patch merges into something that decodes to now[p]. */
  ghost predicate Becomes(bc: Codec, base: Value, pc: Codec, patch: Value, at: seq<int>, now: seq<Value>)
    requires Patching(bc, base, pc, patch, at) && |now| == |at|
  {
    forall p :: 0 <= p < |at| && patch.fields[p].Ptr? ==>
      var merged := Merge(OldWire(bc, base, pc, patch, at, p), NewWire(bc, base, pc, patch, at, p));
      Decode(pc.partials[p].codec, merged) == Ok(now[p])
  }

  /** Field i took the new value if the patch carries it, and otherwise kept its own. */
  ghost predicate FieldPatched(patch: seq<Value>, now: seq<Value>, at: seq<int>, i: int, before: Value, after: Value)
    requires |at| == |patch| == |now|
  {
    && (forall p :: 0 <= p < |at| && at[p] == i && patch[p].Ptr? ==> after == now[p])
    && ((forall p :: 0 <= p < |at| && at[p] == i ==> !patch[p].Ptr?) ==> after == before)
  }

  ghost predicate Patched(base: seq<Value>, patch: seq<Value>, now: seq<Value>, at: seq<int>, result: seq<Value>)
    requires |at| == |patch| == |now|
  {
    |result| == |base| && forall i :: 0 <= i < |base| ==> FieldPatched(patch, now, at, i, base[i], result[i])
  }

  /** A field the patch carries is decoded from the merge of its two encodings. */
  lemma SetField(bc: Codec, base: Value, pc: Codec, patch: Value, at: seq<int>, p: int)
    requires Patching(bc, base, pc, patch, at) && 0 <= p < |at| && patch.fields[p].Ptr?
    ensures Encode(pc.partials[p].codec, patch.fields[p].target) == Ok(NewWire(bc, base, pc, patch, at, p))
    ensures DecodeSlot(bc.fields[at[p]], Merge(Encode(bc, base).value, Encode(pc, patch).value).m) ==
              Decode(pc.partials[p].codec, Merge(OldWire(bc, base, pc, patch, at, p), NewWire(bc, base, pc, patch, at, p)))
  {
    EncodedPartial(pc, patch);
  }

  /** A field the patch does not carry keeps the base's value. */
  lemma KeptField(bc: Codec, base: Value, pc: Codec, patch: Value, at: seq<int>, i: int)
    requires Patching(bc, base, pc, patch, at)
    requires 0 <= i < |bc.fields| && forall p :: 0 <= p < |at| && at[p] == i ==> !patch.fields[p].Ptr?
    ensures DecodeSlot(bc.fields[i], Merge(Encode(bc, base).value, Encode(pc, patch).value).m) == Ok(base.fields[i])
  {
    var f := bc.fields[i];
    var mb, mp := Encode(bc, base).value.m, Encode(pc, patch).value.m;
    EncodedStruct(bc, base);
    EncodedPartial(pc, patch);
    if f.name in mp {
      var p :| 0 <= p < |at| && PartialNames(pc.partials)[p] == f.name;
      SameNameSameField(bc.fields, at[p], i);
    }
    FieldRoundTrips(f, base.fields[i], mb);
  }

  lemma PatchedField(bc: Codec, base: Value, pc: Codec, patch: Value, at: seq<int>, now: seq<Value>, i: int)
    returns (value: Value)
    requires Patching(bc, base, pc, patch, at) && |now| == |at| && Becomes(bc, base, pc, patch, at, now)
    requires 0 <= i < |bc.fields|
    ensures DecodeSlot(bc.fields[i], Merge(Encode(bc, base).value, Encode(pc, patch).value).m) == Ok(value)
    ensures FieldPatched(patch.fields, now, at, i, base.fields[i], value)
  {
    if p :| 0 <= p < |at| && at[p] == i && patch.fields[p].Ptr? {
      SetField(bc, base, pc, patch, at, p);
      value := now[p];
      forall q | 0 <= q < |at| && at[q] == i ensures q == p {
        assert PartialNames(pc.partials)[p] == PartialNames(pc.partials)[q];
      }
    } else {
      KeptField(bc, base, pc, patch, at, i);
      value := base.fields[i];
    }
  }

  lemma PatchedFields(bc: Codec, base: Value, pc: Codec, patch: Value, at: seq<int>, now: seq<Value>)
    returns (result: seq<Value>)
    requires Patching(bc, base, pc, patch, at) && |now| == |at| && Becomes(bc, base, pc, patch, at, now)
    ensures Patched(base.fields, patch.fields, now, at, result)
    ensures forall i :: 0 <= i < |result| ==>
      DecodeSlot(bc.fields[i], Merge(Encode(bc, base).value, Encode(pc, patch).value).m) == Ok(result[i])
  {
    hide Becomes, FieldPatched;
    var merged := Merge(Encode(bc, base).value, Encode(pc, patch).value).m;
    result := [];
    for i := 0 to |bc.fields|
      invariant |result| == i
      invariant forall k :: 0 <= k < i ==> DecodeSlot(bc.fields[k], merged) == Ok(result[k])
      invariant forall k :: 0 <= k < i ==> FieldPatched(patch.fields, now, at, k, base.fields[k], result[k])
    {
      var value := PatchedField(bc, base, pc, patch, at, now, i);
      result := result + [value];
    }
  }

  lemma MergedKeysDeclared(fields: seq<Field>, partials: seq<PartialField>, at: seq<int>,
                           mb: map<string, Json>, mp: map<string, Json>)
    requires Targets(partials, fields, at)
    requires forall k :: k in mb ==> k in FieldNames(fields)
    requires forall k :: k in mp ==> k in PartialNames(partials)
    ensures forall k :: k in Merge(Obj(mb), Obj(mp)).m ==> k in FieldNames(fields)
  {
    forall k | k in mp ensures k in FieldNames(fields) {
      var p :| 0 <= p < |at| && PartialNames(partials)[p] == k;
      assert FieldNames(fields)[at[p]] == k;
    }
  }

  /** The merged object has no undeclared key, so it is only its fields that decide. */
  lemma FlatPatchDecodes(bc: Codec, base: Value, pc: Codec, patch: Value, at: seq<int>)
    requires Patching(bc, base, pc, patch, at)
    ensures bc.Struct? && Encode(bc, base).value.Obj? && Encode(pc, patch).value.Obj?
    ensures Merge(Encode(bc, base).value, Encode(pc, patch).value).Obj?
    ensures ApplyPatch(base, bc, patch, pc) == Decode(bc, Merge(Encode(bc, base).value, Encode(pc, patch).value))
    ensures forall k :: k in Merge(Encode(bc, base).value, Encode(pc, patch).value).m ==> k in FieldNames(bc.fields)
  {
    EncodedStruct(bc, base);
    EncodedPartial(pc, patch);
    MergedKeysDeclared(bc.fields, pc.partials, at, Encode(bc, base).value.m, Encode(pc, patch).value.m);
  }

  /** A flat patch touches exactly the fields it carries, each of which becomes what its merged
      encodings decode to; every other field is left alone. */
  lemma ApplyPatchMerges(bc: Codec, base: Value, pc: Codec, patch: Value, at: seq<int>, now: seq<Value>)
    returns (result: seq<Value>)
    requires Patching(bc, base, pc, patch, at) && |now| == |at| && Becomes(bc, base, pc, patch, at, now)
    ensures ApplyPatch(base, bc, patch, pc) == Ok(Rec(result))
    ensures Patched(base.fields, patch.fields, now, at, result)
  {
    hide Encode, Decode, Merge, ApplyPatch, Becomes;
    result := PatchedFields(bc, base, pc, patch, at, now);
    FlatPatchDecodes(bc, base, pc, patch, at);
    StructDecodes(bc, Merge(Encode(bc, base).value, Encode(pc, patch).value).m, result);
  }

  // ---- When a patch fails ----

  /** Applying a patch fails exactly when a side does not encode, or not to an object, or the merged object
      is rejected; the base is asked first, and the error is the one of what failed. */
  lemma ApplyPatchFails(base: Value, bc: Codec, patch: Value, pc: Codec)
    ensures ApplyPatch(base, bc, patch, pc).Ok? <==>
              && Encode(bc, base).Ok? && Encode(bc, base).value.Obj?
              && Encode(pc, patch).Ok? && Encode(pc, patch).value.Obj?
              && Decode(bc, Merge(Encode(bc, base).value, Encode(pc, patch).value)).Ok?
    ensures Encode(bc, base).Err? ==> ApplyPatch(base, bc, patch, pc) == Err(Encode(bc, base).error)
    ensures Encode(bc, base).Ok? && !Encode(bc, base).value.Obj? ==> ApplyPatch(base, bc, patch, pc) == Err(TypeMismatch)
    ensures Encode(bc, base).Ok? && Encode(bc, base).value.Obj? ==>
              && (Encode(pc, patch).Err? ==> ApplyPatch(base, bc, patch, pc) == Err(Encode(pc, patch).error))
              && (Encode(pc, patch).Ok? && !Encode(pc, patch).value.Obj? ==>
                    ApplyPatch(base, bc, patch, pc) == Err(TypeMismatch))
              && (Encode(pc, patch).Ok? && Encode(pc, patch).value.Obj? ==>
                    ApplyPatch(base, bc, patch, pc) == Decode(bc, Merge(Encode(bc, base).value, Encode(pc, patch).value)))
  {
    hide Encode, Decode, Merge;
  }

  /** The merge of field p's old and new encoding. */
  ghost function MergedWire(bc: Codec, base: Value, pc: Codec, patch: Value, at: seq<int>, p: int): Json
    requires Patching(bc, base, pc, patch, at) && 0 <= p < |at| && patch.fields[p].Ptr?
  {
    Merge(OldWire(bc, base, pc, patch, at, p), NewWire(bc, base, pc, patch, at, p))
  }

  /** The patch carries field p and its merged encodings do not decode. */
  ghost predicate Spoils(bc: Codec, base: Value, pc: Codec, patch: Value, at: seq<int>, p: int)
    requires Patching(bc, base, pc, patch, at)
  {
    0 <= p < |at| && patch.fields[p].Ptr? && Decode(pc.partials[p].codec, MergedWire(bc, base, pc, patch, at, p)).Err?
  }

  /** The error entry is field p's, with the error its codec gives. */
  ghost predicate Explains(bc: Codec, base: Value, pc: Codec, patch: Value, at: seq<int>, p: int, e: (string, Error))
    requires Patching(bc, base, pc, patch, at) && Spoils(bc, base, pc, patch, at, p)
  {
    e.0 == pc.partials[p].name && Decode(pc.partials[p].codec, MergedWire(bc, base, pc, patch, at, p)) == Err(e.1)
  }

  /** A flat patch whose two sides encode fails exactly when a field it carries merges into something its
      codec rejects, and the error names every such field with its own error and no other field. */
  lemma FlatPatchFailsIff(bc: Codec, base: Value, pc: Codec, patch: Value, at: seq<int>)
    requires Patching(bc, base, pc, patch, at)
    ensures var r := ApplyPatch(base, bc, patch, pc);
            && (r.Err? <==> exists p :: Spoils(bc, base, pc, patch, at, p))
            && (r.Err? ==> r.error.Invalid? && r.error.unknown == {})
    ensures var r := ApplyPatch(base, bc, patch, pc);
            forall p :: Spoils(bc, base, pc, patch, at, p) ==>
              exists e :: e in r.error.fields && Explains(bc, base, pc, patch, at, p, e)
    ensures var r := ApplyPatch(base, bc, patch, pc);
            r.Err? ==> forall e :: e in r.error.fields ==>
              exists p :: Spoils(bc, base, pc, patch, at, p) && Explains(bc, base, pc, patch, at, p, e)
  {
    hide Encode, Decode, Merge, ApplyPatch;
    FlatPatchDecodes(bc, base, pc, patch, at);
    var m := Merge(Encode(bc, base).value, Encode(pc, patch).value).m;
    var bad := StructReportsEverything(bc, m);
    NoUnknownKeys(bc.fields, m);
    forall p | Spoils(bc, base, pc, patch, at, p)
      ensures ApplyPatch(base, bc, patch, pc).Err?
      ensures exists e :: e in ApplyPatch(base, bc, patch, pc).error.fields && Explains(bc, base, pc, patch, at, p, e)
    {
      SpoiledField(bc, base, pc, patch, at, p);
      var q :| 0 <= q < |bad| && bad[q] == at[p];
      var e := Decode(bc, Obj(m)).error.fields[q];
      assert Reports(e, bc.fields[at[p]], m);
      assert Explains(bc, base, pc, patch, at, p, e);
    }
    if Decode(bc, Obj(m)).Err? {
      var es := Decode(bc, Obj(m)).error.fields;
      forall e | e in es ensures exists p :: Spoils(bc, base, pc, patch, at, p) && Explains(bc, base, pc, patch, at, p, e) {
        var q :| 0 <= q < |es| && es[q] == e;
        assert Reports(es[q], bc.fields[bad[q]], m);
        var p := SpoiledBy(bc, base, pc, patch, at, bad[q]);
      }
      var i :| 0 <= i < |bc.fields| && DecodeSlot(bc.fields[i], m).Err?;
      assert i in bad && es[0] in es;
    }
  }

  lemma SpoiledField(bc: Codec, base: Value, pc: Codec, patch: Value, at: seq<int>, p: int)
    requires Patching(bc, base, pc, patch, at) && Spoils(bc, base, pc, patch, at, p)
    ensures 0 <= p < |at| == |pc.partials| && 0 <= at[p] < |bc.fields| && bc.fields[at[p]].name == pc.partials[p].name
    ensures DecodeSlot(bc.fields[at[p]], Merge(Encode(bc, base).value, Encode(pc, patch).value).m) ==
              Err(Decode(pc.partials[p].codec, MergedWire(bc, base, pc, patch, at, p)).error)
  {
    SetField(bc, base, pc, patch, at, p);
  }

  lemma SpoiledBy(bc: Codec, base: Value, pc: Codec, patch: Value, at: seq<int>, i: int) returns (p: int)
    requires Patching(bc, base, pc, patch, at) && 0 <= i < |bc.fields|
    requires DecodeSlot(bc.fields[i], Merge(Encode(bc, base).value, Encode(pc, patch).value).m).Err?
    ensures Spoils(bc, base, pc, patch, at, p) && bc.fields[i].name == pc.partials[p].name
    ensures DecodeSlot(bc.fields[i], Merge(Encode(bc, base).value, Encode(pc, patch).value).m) ==
              Err(Decode(pc.partials[p].codec, MergedWire(bc, base, pc, patch, at, p)).error)
  {
    if forall q :: 0 <= q < |at| && at[q] == i ==> !patch.fields[q].Ptr? {
      KeptField(bc, base, pc, patch, at, i);
      p := 0;
      assert false;
    } else {
      p :| 0 <= p < |at| && at[p] == i && patch.fields[p].Ptr?;
      SetField(bc, base, pc, patch, at, p);
    }
  }

  // ---- When the patch's value replaces the base's ----

  /** The values the patch carries. */
  ghost function Carried(patch: seq<Value>): (now: seq<Value>)
    ensures |now| == |patch|
  {
    seq(|patch|, p requires 0 <= p < |patch| => if patch[p].Ptr? then patch[p].target else Nil)
  }

  /** Every key the old encodings have the new ones have too, at every depth: nothing of the old values
      can show through the merge. */
  ghost predicate NothingShows(bc: Codec, base: Value, pc: Codec, patch: Value, at: seq<int>)
    requires Patching(bc, base, pc, patch, at)
  {
    forall p :: 0 <= p < |at| && patch.fields[p].Ptr? ==>
      Covers(OldWire(bc, base, pc, patch, at, p), NewWire(bc, base, pc, patch, at, p))
  }

  /** Then a flat patch sets exactly the fields it carries to the values it carries. */
  lemma ApplyPatchSetsFields(bc: Codec, base: Value, pc: Codec, patch: Value, at: seq<int>) returns (result: seq<Value>)
    requires Patching(bc, base, pc, patch, at) && NothingShows(bc, base, pc, patch, at)
    ensures ApplyPatch(base, bc, patch, pc) == Ok(Rec(result))
    ensures Patched(base.fields, patch.fields, Carried(patch.fields), at, result)
  {
    var now := Carried(patch.fields);
    forall p | 0 <= p < |at| && patch.fields[p].Ptr?
      ensures Decode(pc.partials[p].codec,
                     Merge(OldWire(bc, base, pc, patch, at, p), NewWire(bc, base, pc, patch, at, p))) == Ok(now[p])
    {
      SetField(bc, base, pc, patch, at, p);
      MergeAbsorbedIff(OldWire(bc, base, pc, patch, at, p), NewWire(bc, base, pc, patch, at, p));
      RoundTrip(pc.partials[p].codec);
      assert Trips(pc.partials[p].codec, patch.fields[p].target);
    }
    result := ApplyPatchMerges(bc, base, pc, patch, at, now);
  }

  /** Codecs that show every key of their encodings: built from codecs that never encode to objects by
      string maps, keyed maps, structs, partial structs, Nullable, Maybe and Refine. */
  ghost predicate Plain(c: Codec)
    decreases c
  {
    NeverObject(c) ||
    match c
    case StringMap(val) => Plain(val)
    case MapOf(_, val) => Plain(val)
    case Nullable(inner) => Plain(inner)
    case MaybeOf(inner, _) => Plain(inner)
    case Refine(inner, _) => Plain(inner)
    case Struct(fields, _) => forall i | 0 <= i < |fields| :: Plain(fields[i].codec)
    case PartialStruct(partials) => forall i | 0 <= i < |partials| :: Plain(partials[i].codec)
    case _ => false
  }

  ghost predicate NeverObject(c: Codec) {
    forall v: Value :: Encode(c, v).Ok? ==> !Encode(c, v).value.Obj?
  }

  /** Sound, or the codec of a Maybe field at values that are set. */
  ghost predicate SoundFor(c: Codec, a: Value, b: Value) {
    Sound(c) || (c.MaybeOf? && Sound(c.inner) && a.Just? && b.Just?)
  }

  /** Two values whose encodings merge into an encoding of the second one. */
  ghost predicate Absorbs(c: Codec, a: Value, b: Value) {
    Encode(c, a).Ok? && Encode(c, b).Ok? && Decode(c, Merge(Encode(c, a).value, Encode(c, b).value)) == Ok(b)
  }

  /** A field whose old encoding is merged under its new one. */
  lemma FieldShows(f: Field, a: Value, b: Value, ma: map<string, Json>, mb: map<string, Json>)
    requires SoundField(f) && EncodeSlot(f, a) == Ok(SlotOf(f, ma)) && EncodeSlot(f, b) == Ok(SlotOf(f, mb))
    requires DecodeSlot(f, Merge(Obj(ma), Obj(mb)).m) == Ok(b) && f.name in ma
    ensures f.name in mb && SoundFor(f.codec, a, b) && Absorbs(f.codec, a, b)
    ensures Encode(f.codec, a) == Ok(ma[f.name]) && Encode(f.codec, b) == Ok(mb[f.name])
  {
    FieldTrips(f, a);
    assert Trips(f.codec, a);
  }

  lemma PartialShows(f: PartialField, a: Value, b: Value, ma: map<string, Json>, mb: map<string, Json>)
    requires Sound(f.codec) && f.name in ma && EncodePartial(f, a) == Ok(Present(ma[f.name]))
    requires EncodePartial(f, b) == Ok(if f.name in mb then Present(mb[f.name]) else Absent)
    requires DecodePartial(f, Merge(Obj(ma), Obj(mb)).m) == Ok(b)
    ensures f.name in mb && a.Ptr? && b.Ptr? && Absorbs(f.codec, a.target, b.target)
    ensures Encode(f.codec, a.target) == Ok(ma[f.name]) && Encode(f.codec, b.target) == Ok(mb[f.name])
  {
  }

  lemma StructShows(c: Codec, a: Value, b: Value, name: string) returns (i: int)
    requires c.Struct? && Sound(c) && Absorbs(c, a, b) && name in Encode(c, a).value.m
    ensures a.Rec? && b.Rec? && |a.fields| == |b.fields| == |c.fields| && Encode(c, b).value.Obj?
    ensures 0 <= i < |c.fields| && c.fields[i].name == name && name in Encode(c, b).value.m
    ensures SoundFor(c.fields[i].codec, a.fields[i], b.fields[i]) && Absorbs(c.fields[i].codec, a.fields[i], b.fields[i])
    ensures Encode(c.fields[i].codec, a.fields[i]) == Ok(Encode(c, a).value.m[name])
    ensures Encode(c.fields[i].codec, b.fields[i]) == Ok(Encode(c, b).value.m[name])
  {
    EncodedStruct(c, a);
    EncodedStruct(c, b);
    var ma, mb := Encode(c, a).value.m, Encode(c, b).value.m;
    i :| 0 <= i < |c.fields| && FieldNames(c.fields)[i] == name;
    RecordDecodes(c, Merge(Obj(ma), Obj(mb)).m, b.fields, i);
    FieldShows(c.fields[i], a.fields[i], b.fields[i], ma, mb);
  }

  lemma PartialRecordDecodes(c: Codec, m: map<string, Json>, vs: seq<Value>, i: nat)
    requires c.PartialStruct? && Decode(c, Obj(m)) == Ok(Rec(vs)) && i < |c.partials|
    ensures |vs| == |c.partials| && DecodePartial(c.partials[i], m) == Ok(vs[i])
  {
    var rs := seq(|c.partials|, i requires 0 <= i < |c.partials| => DecodePartial(c.partials[i], m));
    assert rs[i].Ok?;
  }

  lemma PartialStructShows(c: Codec, a: Value, b: Value, name: string) returns (i: int)
    requires c.PartialStruct? && Sound(c) && Absorbs(c, a, b) && name in Encode(c, a).value.m
    ensures a.Rec? && b.Rec? && |a.fields| == |b.fields| == |c.partials| && Encode(c, b).value.Obj?
    ensures 0 <= i < |c.partials| && c.partials[i].name == name && name in Encode(c, b).value.m
    ensures a.fields[i].Ptr? && b.fields[i].Ptr? && Absorbs(c.partials[i].codec, a.fields[i].target, b.fields[i].target)
    ensures Encode(c.partials[i].codec, a.fields[i].target) == Ok(Encode(c, a).value.m[name])
    ensures Encode(c.partials[i].codec, b.fields[i].target) == Ok(Encode(c, b).value.m[name])
  {
    EncodedPartial(c, a);
    EncodedPartial(c, b);
    var ma, mb := Encode(c, a).value.m, Encode(c, b).value.m;
    i :| 0 <= i < |c.partials| && PartialNames(c.partials)[i] == name;
    PartialRecordDecodes(c, Merge(Obj(ma), Obj(mb)).m, b.fields, i);
    PartialShows(c.partials[i], a.fields[i], b.fields[i], ma, mb);
  }

  lemma EncodedDict(val: Codec, a: map<string, Value>)
    requires Encode(StringMap(val), Dict(a)).Ok?
    ensures Encode(StringMap(val), Dict(a)).value.Obj? && Encode(StringMap(val), Dict(a)).value.m.Keys == a.Keys
    ensures forall k :: k in a ==> Encode(val, a[k]) == Ok(Encode(StringMap(val), Dict(a)).value.m[k])
  {
    var rs := map k | k in a :: Encode(val, a[k]);
    forall k | k in a ensures Encode(val, a[k]) == Ok(Encode(StringMap(val), Dict(a)).value.m[k]) {
      assert rs[k].Ok?;
    }
  }

  lemma DictDecodes(val: Codec, m: map<string, Json>, b: map<string, Value>, k: string)
    requires Decode(StringMap(val), Obj(m)) == Ok(Dict(b)) && k in m
    ensures k in b && Decode(val, m[k]) == Ok(b[k])
  {
    var rs := map k | k in m :: Decode(val, m[k]);
    assert k in rs && rs[k].Ok?;
  }

  lemma DictShows(c: Codec, a: Value, b: Value, k: string)
    requires c.StringMap? && Absorbs(c, a, b) && k in Encode(c, a).value.m
    ensures a.Dict? && b.Dict? && k in a.entries && k in b.entries && Absorbs(c.val, a.entries[k], b.entries[k])
    ensures Encode(c, b).value.Obj? && k in Encode(c, b).value.m
    ensures Encode(c.val, a.entries[k]) == Ok(Encode(c, a).value.m[k])
    ensures Encode(c.val, b.entries[k]) == Ok(Encode(c, b).value.m[k])
  {
    EncodedDict(c.val, a.entries);
    EncodedDict(c.val, b.entries);
    DictDecodes(c.val, Merge(Encode(c, a).value, Encode(c, b).value).m, b.entries, k);
  }

  /** The wrappers pass the encodings of the values inside through. */
  lemma WrapperShows(c: Codec, a: Value, b: Value) returns (inner: Codec, x: Value, y: Value)
    requires c.Nullable? || c.MaybeOf? || c.Refine?
    requires SoundFor(c, a, b) && Plain(c) && !NeverObject(c) && Absorbs(c, a, b)
    requires Encode(c, a).value.Obj? && Encode(c, b).value.Obj?
    ensures inner == c.inner && Plain(inner) && Sound(inner) && Absorbs(inner, x, y)
    ensures Encode(inner, x) == Encode(c, a) && Encode(inner, y) == Encode(c, b)
  {
    inner := c.inner;
    if c.Nullable? { x, y := a.target, b.target; } else if c.MaybeOf? { x, y := a.just, b.just; } else { x, y := a, b; }
  }

  /** The row that an encoded keyed map holds under a key. */
  lemma RowUnder(key: Codec, val: Codec, rows: map<Value, Value>, m: map<string, Json>, s: string) returns (k: Value)
    requires TripsAll(key) && Encode(MapOf(key, val), Table(rows)) == Ok(Obj(m)) && s in m
    ensures k in rows && Encode(key, k) == Ok(Str(s)) && Decode(key, Str(s)) == Ok(k)
    ensures Encode(val, rows[k]) == Ok(m[s])
  {
    hide Decode, Rekey;
    var e := ObjectOfRowsOk(EncodedRows(key, val, rows));
    RekeyOrigin(e, s);
    k :| k in e && e[k].0 == s && e[k].1 == Rekey(e)[s];
    assert EncodedRows(key, val, rows)[k] == (Ok(Str(s)), Ok(m[s]));
    assert Trips(key, k);
  }

  /** The key under which an encoded keyed map holds a row. */
  lemma KeyOfRow(key: Codec, val: Codec, rows: map<Value, Value>, m: map<string, Json>, k: Value)
    requires Encode(MapOf(key, val), Table(rows)) == Ok(Obj(m)) && k in rows
    ensures Encode(key, k).Ok? && Encode(key, k).value.Str? && Encode(key, k).value.s in m
  {
    hide Decode;
    var e := ObjectOfRowsOk(EncodedRows(key, val, rows));
    assert EncodedRows(key, val, rows)[k] == (Ok(Str(e[k].0)), Ok(e[k].1));
    assert e[k].0 in NewKeys(e);
  }

  /** What a decoded keyed map has for a key that no other key decodes like. */
  lemma TableRow(key: Codec, val: Codec, m: map<string, Json>, rows: map<Value, Value>, s: string, k: Value)
    requires Decode(MapOf(key, val), Obj(m)) == Ok(Table(rows)) && s in m && Decode(key, Str(s)) == Ok(k)
    requires forall t :: t in m && Decode(key, Str(t)) == Ok(k) ==> t == s
    ensures k in rows && Decode(val, m[s]) == Ok(rows[k])
  {
    hide Encode;
    var rs := DecodedRows(key, val, m);
    var d := Values(rs);
    TableOfOk(rs, d);
    assert d[s].0 == k && k in NewKeys(d);
    RekeyOrigin(d, k);
    var t :| t in d && d[t].0 == k && d[t].1 == Rekey(d)[k];
    assert rs[t].0 == Ok(k);
  }

  /** A key of the old encoding decodes to a row key, which the result must have as well, and so its
      own encoding has the key. */
  lemma TableShows(c: Codec, a: Value, b: Value, s: string) returns (k: Value)
    requires c.MapOf? && Sound(c) && Absorbs(c, a, b)
    requires Encode(c, a).value.Obj? && Encode(c, b).value.Obj? && s in Encode(c, a).value.m
    ensures a.Table? && b.Table? && k in a.rows && k in b.rows && Absorbs(c.val, a.rows[k], b.rows[k])
    ensures s in Encode(c, b).value.m
    ensures Encode(c.val, a.rows[k]) == Ok(Encode(c, a).value.m[s])
    ensures Encode(c.val, b.rows[k]) == Ok(Encode(c, b).value.m[s])
  {
    var ma, mb := Encode(c, a).value.m, Encode(c, b).value.m;
    assert a.Table? && b.Table?;
    hide Encode, Decode;
    RoundTrip(c.key);
    k := RowUnder(c.key, c.val, a.rows, ma, s);
    var merged := Merge(Obj(ma), Obj(mb)).m;
    forall t | t in merged && Decode(c.key, Str(t)) == Ok(k) ensures t == s {
      if t in ma {
        var l := RowUnder(c.key, c.val, a.rows, ma, t);
      } else {
        var l := RowUnder(c.key, c.val, b.rows, mb, t);
      }
    }
    TableRow(c.key, c.val, merged, b.rows, s, k);
    KeyOfRow(c.key, c.val, b.rows, mb, k);
    var l := RowUnder(c.key, c.val, b.rows, mb, s);
  }

  /** For a plain codec the second value comes out of the merge only if nothing of the first one shows. */
  lemma {:induction false} AbsorbedOnlyIfCovered(c: Codec, a: Value, b: Value)
    requires Plain(c) && SoundFor(c, a, b) && Absorbs(c, a, b)
    ensures Covers(Encode(c, a).value, Encode(c, b).value)
    decreases c, 2
  {
    hide Decode;
    var ja, jb := Encode(c, a).value, Encode(c, b).value;
    if !ja.Obj? || !jb.Obj? {
    } else {
      forall k | k in ja.m ensures k in jb.m && Covers(ja.m[k], jb.m[k]) {
        EntryCovered(c, a, b, k);
      }
    }
  }

  /** One key of the old encoding. */
  lemma {:induction false} EntryCovered(c: Codec, a: Value, b: Value, k: string)
    requires Plain(c) && !NeverObject(c) && SoundFor(c, a, b) && Absorbs(c, a, b)
    requires Encode(c, a).value.Obj? && Encode(c, b).value.Obj? && k in Encode(c, a).value.m
    ensures k in Encode(c, b).value.m && Covers(Encode(c, a).value.m[k], Encode(c, b).value.m[k])
    decreases c, 1
  {
    hide Decode, Encode;
    match c
    case StringMap(val) =>
      DictShows(c, a, b, k);
      AbsorbedOnlyIfCovered(val, a.entries[k], b.entries[k]);
    case MapOf(_, val) =>
      var row := TableShows(c, a, b, k);
      AbsorbedOnlyIfCovered(val, a.rows[row], b.rows[row]);
    case Struct(fields, _) =>
      var i := StructShows(c, a, b, k);
      AbsorbedOnlyIfCovered(fields[i].codec, a.fields[i], b.fields[i]);
    case PartialStruct(partials) =>
      var i := PartialStructShows(c, a, b, k);
      AbsorbedOnlyIfCovered(partials[i].codec, a.fields[i].target, b.fields[i].target);
    case Nullable(_) => WrapperCovered(c, a, b);
    case MaybeOf(_, _) => WrapperCovered(c, a, b);
    case Refine(_, _) => WrapperCovered(c, a, b);
  }

  lemma {:induction false} WrapperCovered(c: Codec, a: Value, b: Value)
    requires c.Nullable? || c.MaybeOf? || c.Refine?
    requires SoundFor(c, a, b) && Plain(c) && !NeverObject(c) && Absorbs(c, a, b)
    requires Encode(c, a).value.Obj? && Encode(c, b).value.Obj?
    ensures Covers(Encode(c, a).value, Encode(c, b).value)
    decreases c, 0
  {
    var inner, x, y := WrapperShows(c, a, b);
    AbsorbedOnlyIfCovered(inner, x, y);
  }

  /** A flat patch whose fields have plain codecs sets exactly the values it carries if and only if
      nothing of the old values shows. */
  lemma ApplyPatchSetsFieldsIff(bc: Codec, base: Value, pc: Codec, patch: Value, at: seq<int>, result: seq<Value>)
    requires Patching(bc, base, pc, patch, at) && forall p | 0 <= p < |at| :: Plain(pc.partials[p].codec)
    requires Patched(base.fields, patch.fields, Carried(patch.fields), at, result)
    ensures ApplyPatch(base, bc, patch, pc) == Ok(Rec(result)) <==> NothingShows(bc, base, pc, patch, at)
  {
    if NothingShows(bc, base, pc, patch, at) {
      var r := ApplyPatchSetsFields(bc, base, pc, patch, at);
      SamePatched(base.fields, patch.fields, Carried(patch.fields), at, r, result);
    }
    if ApplyPatch(base, bc, patch, pc) == Ok(Rec(result)) {
      forall p | 0 <= p < |at| && patch.fields[p].Ptr?
        ensures Covers(OldWire(bc, base, pc, patch, at, p), NewWire(bc, base, pc, patch, at, p))
      {
        CarriedOnlyIfCovered(bc, base, pc, patch, at, result, p);
      }
    }
  }

  lemma SamePatched(base: seq<Value>, patch: seq<Value>, now: seq<Value>, at: seq<int>, r: seq<Value>, s: seq<Value>)
    requires |at| == |patch| == |now| && Patched(base, patch, now, at, r) && Patched(base, patch, now, at, s)
    ensures r == s
  {
    forall i | 0 <= i < |base| ensures r[i] == s[i] {
      assert FieldPatched(patch, now, at, i, base[i], r[i]) && FieldPatched(patch, now, at, i, base[i], s[i]);
    }
  }

  lemma CarriedOnlyIfCovered(bc: Codec, base: Value, pc: Codec, patch: Value, at: seq<int>, result: seq<Value>, p: int)
    requires Patching(bc, base, pc, patch, at) && 0 <= p < |at| && patch.fields[p].Ptr? && Plain(pc.partials[p].codec)
    requires Patched(base.fields, patch.fields, Carried(patch.fields), at, result)
    requires ApplyPatch(base, bc, patch, pc) == Ok(Rec(result))
    ensures Covers(OldWire(bc, base, pc, patch, at, p), NewWire(bc, base, pc, patch, at, p))
  {
    hide Encode, Decode, Merge, Plain, ApplyPatch;
    var f, codec, i := bc.fields[at[p]], pc.partials[p].codec, at[p];
    var mb := Encode(bc, base).value.m;
    FlatPatchDecodes(bc, base, pc, patch, at);
    SetField(bc, base, pc, patch, at, p);
    RecordDecodes(bc, Merge(Encode(bc, base).value, Encode(pc, patch).value).m, result, i);
    assert FieldPatched(patch.fields, Carried(patch.fields), at, i, base.fields[i], result[i]);
    EncodedStruct(bc, base);
    if f.name in mb {
      assert EncodeSlot(f, base.fields[i]) == Ok(Present(mb[f.name]));
      AbsorbedOnlyIfCovered(codec, base.fields[i], patch.fields[p].target);
    }
  }

  // ---- Map-valued fields ----

  /** Encodings of entries that both maps have do not let the old one show. */
  ghost predicate EntriesCovered(val: Codec, a: map<string, Value>, b: map<string, Value>) {
    forall k :: k in a && k in b && Encode(val, a[k]).Ok? && Encode(val, b[k]).Ok? ==>
      Covers(Encode(val, a[k]).value, Encode(val, b[k]).value)
  }

  lemma DictMerged(val: Codec, a: map<string, Value>, b: map<string, Value>)
    requires TripsAll(val) && Encode(StringMap(val), Dict(a)).Ok? && Encode(StringMap(val), Dict(b)).Ok?
    requires EntriesCovered(val, a, b)
    ensures Decode(StringMap(val), Merge(Encode(StringMap(val), Dict(a)).value, Encode(StringMap(val), Dict(b)).value))
              == Ok(Dict(a + b))
  {
    EncodedDict(val, a);
    EncodedDict(val, b);
    var ja, jb := Encode(StringMap(val), Dict(a)).value, Encode(StringMap(val), Dict(b)).value;
    var merged := Merge(ja, jb).m;
    forall k | k in merged ensures Decode(val, merged[k]) == Ok((a + b)[k]) {
      if k in b {
        assert Encode(val, b[k]) == Ok(jb.m[k]);
        if k in a { assert Encode(val, a[k]) == Ok(ja.m[k]); }
        MergeAbsorbedIff(At(ja.m, k), jb.m[k]);
        assert merged[k] == Merge(At(ja.m, k), jb.m[k]) == jb.m[k];
        assert Trips(val, b[k]);
      } else {
        assert Trips(val, a[k]);
      }
    }
    StringMapDecodes(val, merged, a + b);
  }

  lemma MapFieldBecomes(bc: Codec, base: Value, pc: Codec, patch: Value, i: int, val: Codec,
                        a: map<string, Value>, b: map<string, Value>)
    requires Patching(bc, base, pc, patch, [i]) && pc.partials[0].codec == StringMap(val)
    requires base.fields[i] == Dict(a) && patch.fields == [Ptr(Dict(b))] && EntriesCovered(val, a, b)
    requires bc.fields[i].name in Encode(bc, base).value.m
    ensures Becomes(bc, base, pc, patch, [i], [Dict(a + b)])
  {
    MapFieldWires(bc, base, pc, patch, i, val, a, b);
    RoundTrip(val);
    DictMerged(val, a, b);
  }

  lemma MapFieldWires(bc: Codec, base: Value, pc: Codec, patch: Value, i: int, val: Codec,
                      a: map<string, Value>, b: map<string, Value>)
    requires Patching(bc, base, pc, patch, [i]) && pc.partials[0].codec == StringMap(val)
    requires base.fields[i] == Dict(a) && patch.fields == [Ptr(Dict(b))]
    requires bc.fields[i].name in Encode(bc, base).value.m
    ensures Sound(val)
    ensures Encode(StringMap(val), Dict(a)) == Ok(OldWire(bc, base, pc, patch, [i], 0))
    ensures Encode(StringMap(val), Dict(b)) == Ok(NewWire(bc, base, pc, patch, [i], 0))
  {
    EncodedStruct(bc, base);
    SetField(bc, base, pc, patch, [i], 0);
    assert EncodeSlot(bc.fields[i], base.fields[i]) == Ok(SlotOf(bc.fields[i], Encode(bc, base).value.m));
    assert Sound(pc.partials[0].codec);
  }

  lemma UnionIsSecondIff(a: map<string, Value>, b: map<string, Value>)
    ensures a + b == b <==> a.Keys <= b.Keys
  {
    if a + b == b { assert (a + b).Keys == a.Keys + b.Keys; }
  }

  /** A map-valued field of a struct whose patch carries that field: the patch never removes an entry.
      The field becomes the base's entries with the patch's laid over them, and so it becomes the
      patch's map exactly when that has all of the base's keys. */
  lemma MapFieldUnites(bc: Codec, base: Value, pc: Codec, patch: Value, i: int, val: Codec,
                       a: map<string, Value>, b: map<string, Value>) returns (result: seq<Value>)
    requires Patching(bc, base, pc, patch, [i]) && pc.partials[0].codec == StringMap(val)
    requires base.fields[i] == Dict(a) && patch.fields == [Ptr(Dict(b))] && EntriesCovered(val, a, b)
    requires bc.fields[i].name in Encode(bc, base).value.m
    ensures ApplyPatch(base, bc, patch, pc) == Ok(Rec(result)) && |result| == |base.fields|
    ensures result[i] == Dict(a + b) && forall k :: 0 <= k < |result| && k != i ==> result[k] == base.fields[k]
    ensures result[i] == Dict(b) <==> a.Keys <= b.Keys
  {
    var at, now := [i], [Dict(a + b)];
    MapFieldBecomes(bc, base, pc, patch, i, val, a, b);
    result := ApplyPatchMerges(bc, base, pc, patch, at, now);
    forall k | 0 <= k < |result| ensures result[k] == if k == i then Dict(a + b) else base.fields[k] {
      assert FieldPatched(patch.fields, now, at, k, base.fields[k], result[k]);
      assert at[0] == i && now[0] == Dict(a + b) && patch.fields[0].Ptr?;
    }
    UnionIsSecondIff(a, b);
  }

  // ---- An entry that survives ----

  function EnvCodec(): Codec {
    StringMap(StringCodec())
  }

  /** A record with a map of strings, and the patch that carries it. */
  function Service(): Codec {
    Struct([Field("env", EnvCodec(), Required, Dict(map[]))], false)
  }

  function ServicePatch(): Codec {
    PartialStruct([PartialField("env", EnvCodec())])
  }

  lemma EnvEncodes(a: map<string, Value>)
    requires forall k :: k in a ==> a[k].Text?
    ensures Encode(EnvCodec(), Dict(a)).Ok?
  {
    var rs := map k | k in a :: Encode(StringCodec(), a[k]);
    assert forall k :: k in rs ==> rs[k].Ok?;
  }

  lemma ServiceEncodes(a: map<string, Value>)
    requires forall k :: k in a ==> a[k].Text?
    ensures Encode(Service(), Rec([Dict(a)])).Ok? && Encode(Service(), Rec([Dict(a)])).value.Obj?
    ensures "env" in Encode(Service(), Rec([Dict(a)])).value.m
  {
    EnvEncodes(a);
    var v, f := Rec([Dict(a)]), Service().fields[0];
    var rs := seq(1, i requires 0 <= i < 1 => EncodeSlot(Service().fields[i], v.fields[i]));
    assert EncodeSlot(f, Dict(a)).Ok? && EncodeSlot(f, Dict(a)).value.Present?;
    assert FieldNames(Service().fields)[0] == "env";
    EncodedStruct(Service(), v);
  }

  lemma ServicePatchEncodes(b: map<string, Value>)
    requires forall k :: k in b ==> b[k].Text?
    ensures Encode(ServicePatch(), Rec([Ptr(Dict(b))])).Ok? && Encode(ServicePatch(), Rec([Ptr(Dict(b))])).value.Obj?
  {
    EnvEncodes(b);
    var f := ServicePatch().partials[0];
    assert EncodePartial(f, Ptr(Dict(b))).Ok?;
  }

  lemma EnvIsSound()
    ensures Sound(StringCodec()) && Sound(EnvCodec())
  {
  }

  lemma ServicesAreSound()
    ensures Sound(Service()) && Sound(ServicePatch())
  {
    EnvIsSound();
    assert SoundField(Service().fields[0]) && Sound(ServicePatch().partials[0].codec);
  }

  lemma StringsCovered(a: map<string, Value>, b: map<string, Value>)
    ensures EntriesCovered(StringCodec(), a, b)
  {
  }

  lemma ServicePatching(a: map<string, Value>, b: map<string, Value>)
    requires (forall k :: k in a ==> a[k].Text?) && forall k :: k in b ==> b[k].Text?
    ensures Patching(Service(), Rec([Dict(a)]), ServicePatch(), Rec([Ptr(Dict(b))]), [0])
  {
    ServicesAreSound();
    ServiceEncodes(a);
    ServicePatchEncodes(b);
  }

  /** A patch that carries the map {B: 2} does not replace the map {A: 1}: A is still there. */
  lemma EntrySurvives()
    ensures ApplyPatch(Rec([Dict(map["A" := Text("1")])]), Service(),
                       Rec([Ptr(Dict(map["B" := Text("2")]))]), ServicePatch())
              == Ok(Rec([Dict(map["A" := Text("1"), "B" := Text("2")])]))
  {
    var a, b := map["A" := Text("1")], map["B" := Text("2")];
    ServicePatching(a, b);
    ServiceEncodes(a);
    StringsCovered(a, b);
    var result := MapFieldUnites(Service(), Rec([Dict(a)]), ServicePatch(), Rec([Ptr(Dict(b))]), 0, StringCodec(), a, b);
    assert a + b == map["A" := Text("1"), "B" := Text("2")];
    assert result == [Dict(a + b)];
  }
}
