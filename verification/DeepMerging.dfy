/** The functional deep merge (deepMergeAny) and its algebra. */
module DeepMerging {
  import opened Wire

  /** patch laid over base: objects merge key by key, anything else is replaced. */
  function Merge(base: Json, patch: Json): Json
    decreases patch
  {
    if base.Obj? && patch.Obj? then
      Obj(map k | k in base.m.Keys + patch.m.Keys ::
            if k in patch.m then Merge(At(base.m, k), patch.m[k]) else base.m[k])
    else
      patch
  }

  /** deepMergeAny as written: copy base's entries, then visit the patch's entries in
      whatever order the map iteration yields them. */
  method DeepMergeAny(base: Json, patch: Json) returns (r: Json)
    ensures r == Merge(base, patch)
    decreases patch
  {
    if !base.Obj? || !patch.Obj? {
      return patch;
    }
    var result := base.m;
    var todo := patch.m.Keys;
    while todo != {}
      invariant todo <= patch.m.Keys
      invariant result.Keys == base.m.Keys + (patch.m.Keys - todo)
      invariant forall k | k in result.Keys ::
                  result[k] == if k in patch.m && k !in todo then Merge(At(base.m, k), patch.m[k]) else base.m[k]
    {
      var k :| k in todo;
      assert At(result, k) == At(base.m, k);
      var merged := DeepMergeAny(At(result, k), patch.m[k]);
      result := result[k := merged];
      todo := todo - {k};
    }
    r := Obj(result);
    assert r.m == Merge(base, patch).m;
  }

  // ---- Idempotence ----

  lemma {:induction false} MergeSelf(p: Json)
    ensures Merge(p, p) == p
  {
    if !p.Obj? {
    } else {
      forall k | k in p.m ensures Merge(p.m[k], p.m[k]) == p.m[k] { MergeSelf(p.m[k]); }
      assert Merge(p, p).m == p.m;
    }
  }

  /** Applying the same patch twice is applying it once. */
  lemma {:induction false} MergeIdempotent(base: Json, p: Json)
    ensures Merge(Merge(base, p), p) == Merge(base, p)
    decreases p
  {
    if base.Obj? && p.Obj? {
      forall k | k in p.m ensures Merge(Merge(At(base.m, k), p.m[k]), p.m[k]) == Merge(At(base.m, k), p.m[k]) {
        MergeIdempotent(At(base.m, k), p.m[k]);
      }
      assert Merge(Merge(base, p), p).m == Merge(base, p).m;
    } else {
      MergeSelf(p);
    }
  }

  // ---- Commutation ----

  /** Wherever both patches put something, they agree on it or both put an object there. */
  predicate Compatible(v: Json, u: Json)
    decreases v
  {
    if v.Obj? && u.Obj? then forall k | k in v.m && k in u.m :: Compatible(v.m[k], u.m[k]) else v == u
  }

  lemma {:induction false} CompatibleSymmetric(v: Json, u: Json)
    ensures Compatible(v, u) <==> Compatible(u, v)
    decreases v
  {
    if !v.Obj? || !u.Obj? {
    } else {
      forall k | k in v.m && k in u.m ensures Compatible(v.m[k], u.m[k]) <==> Compatible(u.m[k], v.m[k]) {
        CompatibleSymmetric(v.m[k], u.m[k]);
      }
    }
  }

  /** What two object patches make of one key, laid on one after the other. */
  lemma MergedTwiceAt(x: Json, v: Json, u: Json, k: string)
    requires v.Obj? && u.Obj? && k in v.m && k in u.m
    ensures var twice := Merge(Merge(x, v), u);
            twice.Obj? && k in twice.m &&
            twice.m[k] == Merge(Merge(if x.Obj? then At(x.m, k) else Null, v.m[k]), u.m[k])
  {
  }

  lemma MergedTwiceBeside(x: Json, v: Json, u: Json, k: string)
    requires v.Obj? && u.Obj? && !(k in v.m && k in u.m)
    ensures var vu, uv := Merge(Merge(x, v), u), Merge(Merge(x, u), v);
            && vu.Obj? && uv.Obj? && (k in vu.m <==> k in uv.m) && (k in vu.m ==> vu.m[k] == uv.m[k])
  {
  }

  /** Two patches commute on a base, any base, exactly when they are compatible. */
  lemma {:induction false} MergesCommuteIff(x: Json, v: Json, u: Json)
    ensures Merge(Merge(x, v), u) == Merge(Merge(x, u), v) <==> Compatible(v, u)
    decreases v
  {
    if !v.Obj? || !u.Obj? {
    } else {
      var vu, uv := Merge(Merge(x, v), u), Merge(Merge(x, u), v);
      forall k ensures (k in vu.m <==> k in uv.m)
        ensures k in vu.m ==> (vu.m[k] == uv.m[k] <==> k !in v.m || k !in u.m || Compatible(v.m[k], u.m[k]))
      {
        if k in v.m && k in u.m {
          MergedTwiceAt(x, v, u, k);
          MergedTwiceAt(x, u, v, k);
          MergesCommuteIff(if x.Obj? then At(x.m, k) else Null, v.m[k], u.m[k]);
        } else {
          MergedTwiceBeside(x, v, u, k);
        }
      }
      if Compatible(v, u) {
        assert vu.m == uv.m;
      } else {
        var k :| k in v.m && k in u.m && !Compatible(v.m[k], u.m[k]);
        MergedTwiceAt(x, v, u, k);
        assert vu.m[k] != uv.m[k];
      }
    }
  }

  // ---- Relation to section 2 of RFC 7396 ----

  /** MergePatch as the RFC's pseudocode defines it: null members delete. */
  function MergePatch(target: Json, patch: Json): Json
    decreases patch
  {
    if patch.Obj? then
      var t := if target.Obj? then target.m else map[];
      Obj(map k | k in t.Keys + patch.m.Keys && !(k in patch.m && patch.m[k].Null?) ::
            if k in patch.m then MergePatch(At(t, k), patch.m[k]) else t[k])
    else
      patch
  }

  predicate NoNullMember(p: Json) {
    p.Obj? ==> forall k | k in p.m :: !p.m[k].Null? && NoNullMember(p.m[k])
  }

  lemma {:induction false} MergeIsMergePatchWithoutNulls(base: Json, p: Json)
    requires NoNullMember(p)
    ensures Merge(base, p) == MergePatch(base, p)
    decreases p
  {
    if !p.Obj? {
    } else {
      var t := if base.Obj? then base.m else map[];
      forall k | k in p.m ensures MergePatch(At(t, k), p.m[k]) == Merge(At(t, k), p.m[k]) {
        MergeIsMergePatchWithoutNulls(At(t, k), p.m[k]);
      }
      assert Merge(base, p).m == MergePatch(base, p).m;
    }
  }

  lemma {:induction false} MergePatchOntoNothing(p: Json)
    requires MergePatch(Null, p) == p
    ensures NoNullMember(p)
  {
    if !p.Obj? {
    } else {
      forall k | k in p.m ensures !p.m[k].Null? && NoNullMember(p.m[k]) {
        assert k in MergePatch(Null, p).m;
        assert MergePatch(Null, p).m[k] == MergePatch(Null, p.m[k]);
        MergePatchOntoNothing(p.m[k]);
      }
    }
  }

  ghost predicate MergesLikeRFC7396(p: Json) {
    forall base :: Merge(base, p) == MergePatch(base, p)
  }

  /** The merge is RFC 7396's on every base exactly for the patches with no null member. */
  lemma MergeIsMergePatchIff(p: Json)
    ensures MergesLikeRFC7396(p) <==> NoNullMember(p)
  {
    if NoNullMember(p) {
      forall base ensures Merge(base, p) == MergePatch(base, p) { MergeIsMergePatchWithoutNulls(base, p); }
    }
    if MergesLikeRFC7396(p) {
      assert Merge(Null, p) == p;
      MergePatchOntoNothing(p);
    }
  }

  // ---- Composing patches ----

  /** Every key the object a has, c has too, at every depth where both are objects. */
  predicate Covers(a: Json, c: Json)
    decreases c
  {
    a.Obj? && c.Obj? ==> forall k | k in a.m :: k in c.m && Covers(a.m[k], c.m[k])
  }

  /** Where a has an object and c has an object, b does not put a non-object in between,
      unless c overwrites all of a's object anyway. */
  predicate Composable(a: Json, b: Json, c: Json)
    decreases c
  {
    a.Obj? && c.Obj? ==>
      if b.Obj? then forall k | k in b.m && k in c.m :: Composable(At(a.m, k), b.m[k], c.m[k])
      else Covers(a, c)
  }

  lemma {:induction false} MergeAbsorbedIff(a: Json, c: Json)
    ensures Merge(a, c) == c <==> Covers(a, c)
    decreases c
  {
    if !a.Obj? || !c.Obj? {
    } else {
      forall k | k in c.m ensures Merge(At(a.m, k), c.m[k]) == c.m[k] <==> Covers(At(a.m, k), c.m[k]) {
        MergeAbsorbedIff(At(a.m, k), c.m[k]);
      }
      if Covers(a, c) {
        assert Merge(a, c).m == c.m;
      }
      if Merge(a, c) == c {
        forall k | k in a.m ensures k in c.m && Covers(a.m[k], c.m[k]) {
          assert k in Merge(a, c).m;
          assert Merge(a, c).m[k] == c.m[k];
        }
      }
    }
  }

  /** Patching with b and then with c is patching once with merge(b, c), exactly when no path
      has an object in the base, a non-object in b and a partial object in c. */
  lemma {:induction false} MergeComposesIff(a: Json, b: Json, c: Json)
    ensures Merge(Merge(a, b), c) == Merge(a, Merge(b, c)) <==> Composable(a, b, c)
    decreases c
  {
    if !a.Obj? || !c.Obj? {
    } else {
      if b.Obj? {
        var l, r := Merge(Merge(a, b), c), Merge(a, Merge(b, c));
        forall k | k in b.m && k in c.m
          ensures l.m[k] == r.m[k] <==> Composable(At(a.m, k), b.m[k], c.m[k])
        {
          MergeComposesIff(At(a.m, k), b.m[k], c.m[k]);
        }
        assert l.m.Keys == r.m.Keys;
        forall k | k in l.m && !(k in b.m && k in c.m) ensures l.m[k] == r.m[k] {
          assert At(Merge(a, b).m, k) == if k in b.m then Merge(At(a.m, k), b.m[k]) else At(a.m, k);
          assert k in c.m ==> Merge(b, c).m[k] == Merge(Null, c.m[k]) == c.m[k];
        }
        if Composable(a, b, c) { assert l.m == r.m; }
        if l == r {
          forall k | k in b.m && k in c.m ensures Composable(At(a.m, k), b.m[k], c.m[k]) {
            assert k in l.m && l.m[k] == r.m[k];
          }
        }
      } else {
        MergeAbsorbedIff(a, c);
      }
    }
  }
}
