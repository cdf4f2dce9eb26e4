/** The loops inside the codec constructors. The codecs they call are closures, as in the source,
    and each loop is proved against the collecting functions the interpreters use. */
module CodecLoops {
  import opened Wire
  import opened Codecs

  /** SliceOf, both directions: stop at the first element that fails. */
  method MapElements<A, B>(f: A -> Result<B>, xs: seq<A>) returns (r: Result<seq<B>>)
    ensures r == AllOk(seq(|xs|, i requires 0 <= i < |xs| => f(xs[i])))
  {
    ghost var rs := seq(|xs|, i requires 0 <= i < |xs| => f(xs[i]));
    var out: seq<B> := [];
    for i := 0 to |xs|
      invariant |out| == i && forall k :: 0 <= k < i ==> rs[k] == Ok(out[k])
    {
      match f(xs[i]) {
        case Err(e) =>
          assert rs[i].Err?;
          FirstErrorAt(rs, 0, i);
          return Err(Element(i, e));
        case Ok(b) =>
          out := out + [b];
      }
    }
    assert seq(|rs|, i requires 0 <= i < |rs| && rs[i].Ok? => rs[i].value) == out;
    return Ok(out);
  }

  lemma FirstErrorAt<T>(rs: seq<Result<T>>, i: nat, n: nat)
    requires i <= n < |rs| && rs[n].Err? && forall k :: i <= k < n ==> rs[k].Ok?
    ensures FirstError(rs, i) == Element(n, rs[n].error)
    decreases n - i
  {
    if i < n { FirstErrorAt(rs, i + 1, n); }
  }

  /** Struct and PartialStruct, encoding: every field is visited, errors are collected, and an
      omitted field leaves no key. */
  method EncodeFields(names: seq<string>, encs: seq<Value -> Result<Slot>>, v: seq<Value>) returns (r: Result<Json>)
    requires |names| == |encs| == |v|
    ensures r == ObjectOf(names, seq(|v|, i requires 0 <= i < |v| => encs[i](v[i])))
  {
    ghost var rs := seq(|v|, i requires 0 <= i < |v| => encs[i](v[i]));
    var obj: map<string, Json> := map[];
    var errs: seq<(string, Error)> := [];
    for i := 0 to |v|
      invariant errs == Failures(names[..i], rs[..i])
      invariant errs == [] <==> forall k :: 0 <= k < i ==> rs[k].Ok?
      invariant obj == Collect(names[..i], Slots(rs)[..i])
    {
      assert names[..i + 1][..i] == names[..i] && rs[..i + 1][..i] == rs[..i];
      CollectSnoc(names, Slots(rs), i);
      var slot := encs[i](v[i]);
      if slot.Err? {
        errs := errs + [(names[i], slot.error)];
      } else if slot.value.Present? {
        obj := obj[names[i] := slot.value.j];
      }
    }
    assert names[..|v|] == names && rs[..|v|] == rs && Slots(rs)[..|v|] == Slots(rs);
    if errs != [] { return Err(Invalid(errs, {})); }
    assert seq(|rs|, i requires 0 <= i < |rs| && rs[i].Ok? => rs[i].value) == Slots(rs);
    return Ok(Obj(obj));
  }

  /** What each field leaves in the object, errors leaving nothing. */
  ghost function Slots(rs: seq<Result<Slot>>): (slots: seq<Slot>)
    ensures |slots| == |rs|
  {
    seq(|rs|, i requires 0 <= i < |rs| => if rs[i].Ok? then rs[i].value else Absent)
  }

  lemma CollectSnoc(names: seq<string>, slots: seq<Slot>, n: nat)
    requires n < |names| == |slots|
    ensures Collect(names[..n + 1], slots[..n + 1]) ==
              if slots[n].Present? then Collect(names[..n], slots[..n])[names[n] := slots[n].j]
              else Collect(names[..n], slots[..n])
  {
    assert names[..n + 1][..n] == names[..n] && slots[..n + 1][..n] == slots[..n];
  }

  /** Struct, StrictStruct and PartialStruct, decoding: fields set the target one by one over its
      zero value, a field that yields None leaves it alone, and the strict form adds the keys no
      field declares. */
  method DecodeFields(names: seq<string>, decs: seq<map<string, Json> -> Result<Option<Value>>>,
                      zero: seq<Value>, obj: map<string, Json>, strict: bool) returns (r: Result<Value>)
    requires |names| == |decs| == |zero|
    ensures r == RecordOf(names, Decoded(decs, zero, obj), if strict then set k | k in obj && k !in names else {})
  {
    ghost var rs := Decoded(decs, zero, obj);
    var target := zero;
    var errs: seq<(string, Error)> := [];
    for i := 0 to |decs|
      invariant |target| == |zero| && target[i..] == zero[i..]
      invariant errs == Failures(names[..i], rs[..i])
      invariant errs == [] <==> forall k :: 0 <= k < i ==> rs[k].Ok?
      invariant forall k :: 0 <= k < i && rs[k].Ok? ==> target[k] == rs[k].value
    {
      assert names[..i + 1][..i] == names[..i] && rs[..i + 1][..i] == rs[..i];
      match decs[i](obj) {
        case Err(e) => errs := errs + [(names[i], e)];
        case Ok(Some(val)) => target := target[i := val];
        case Ok(None) => assert target[i] == target[i..][0] == zero[i];
      }
    }
    assert names[..|decs|] == names && rs[..|decs|] == rs;
    var unknown: set<string> := {};
    if strict {
      var todo := obj.Keys;
      while todo != {}
        invariant todo <= obj.Keys
        invariant unknown == set k | k in obj.Keys - todo && k !in names
      {
        var k :| k in todo;
        if k !in names { unknown := unknown + {k}; }
        todo := todo - {k};
      }
    }
    assert unknown == if strict then set k | k in obj && k !in names else {};
    if errs != [] || unknown != {} { return Err(Invalid(errs, unknown)); }
    assert seq(|rs|, i requires 0 <= i < |rs| && rs[i].Ok? => rs[i].value) == target;
    return Ok(Rec(target));
  }

  ghost function Decoded(decs: seq<map<string, Json> -> Result<Option<Value>>>, zero: seq<Value>, obj: map<string, Json>)
    : (rs: seq<Result<Value>>)
    requires |decs| == |zero|
    ensures |rs| == |decs|
  {
    seq(|decs|, i requires 0 <= i < |decs| =>
      match decs[i](obj)
      case Ok(Some(v)) => Ok(v)
      case Ok(None) => Ok(zero[i])
      case Err(e) => Err(e))
  }

  /** StringMap, both directions: entries in whatever order the map yields them, stopping at the
      first that fails. */
  method MapEntries<A, B>(f: A -> Result<B>, m: map<string, A>) returns (r: Result<map<string, B>>)
    ensures (forall k :: k in m ==> f(m[k]).Ok?) <==> r.Ok?
    ensures r.Ok? ==> r == AllEntries(map k | k in m :: f(m[k]))
    ensures r.Err? ==> exists k :: k in m && f(m[k]).Err? && r == Err(Entry(k, f(m[k]).error))
  {
    var out: map<string, B> := map[];
    var todo := m.Keys;
    while todo != {}
      invariant todo <= m.Keys && out.Keys == m.Keys - todo
      invariant forall k :: k in out ==> f(m[k]) == Ok(out[k])
    {
      var k :| k in todo;
      match f(m[k]) {
        case Err(e) => return Err(Entry(k, e));
        case Ok(b) => out := out[k := b];
      }
      todo := todo - {k};
    }
    ghost var rs := map k | k in m :: f(m[k]);
    assert out == map k | k in rs :: rs[k].value;
    return Ok(out);
  }

  /** Map, both directions: later entries overwrite earlier ones under the same new key, so the
      iteration order shows exactly when two entries claim one key. */
  method MapRows<A(==), B(==), C>(f: A -> Result<(B, C)>, rows: set<A>) returns (r: Result<map<B, C>>)
    ensures (forall a :: a in rows ==> f(a).Ok?) <==> r.Ok?
    ensures r.Ok? ==> r.value.Keys == set a | a in rows :: f(a).value.0
    ensures r.Ok? ==> forall b :: b in r.value ==> exists a :: a in rows && f(a) == Ok((b, r.value[b]))
    ensures r.Ok? && (forall x, y :: x in rows && y in rows && f(x).value.0 == f(y).value.0 ==> x == y) ==>
              r.value == Rekey(map a | a in rows :: f(a).value)
  {
    var out: map<B, C> := map[];
    var todo := rows;
    while todo != {}
      invariant todo <= rows
      invariant forall a :: a in rows - todo ==> f(a).Ok? && f(a).value.0 in out
      invariant forall b :: b in out ==> exists a :: a in rows - todo && f(a) == Ok((b, out[b]))
    {
      var a :| a in todo;
      ghost var before, done := out, rows - todo;
      todo := todo - {a};
      match f(a) {
        case Err(e) => return Err(EntryFailed);
        case Ok((b, c)) =>
          out := out[b := c];
          forall b' | b' in out ensures exists a' :: a' in rows - todo && f(a') == Ok((b', out[b'])) {
            if b' == b {
              assert a in rows - todo && f(a) == Ok((b', out[b']));
            } else {
              var a' :| a' in done && f(a') == Ok((b', before[b']));
              assert a' in rows - todo;
            }
          }
      }
    }
    if forall x, y :: x in rows && y in rows && f(x).value.0 == f(y).value.0 ==> x == y {
      ghost var m := map a | a in rows :: f(a).value;
      forall b | b in out ensures b in Rekey(m) && out[b] == Rekey(m)[b] {
        var a :| a in rows && f(a) == Ok((b, out[b]));
        assert m[a].0 == b;
        assert b in NewKeys(m);
      }
      assert out == Rekey(m);
    }
    return Ok(out);
  }

  /** UntaggedUnion, decoding: the first branch that accepts wins, else every error in order. */
  method TryBranches(decs: seq<Json -> Result<Value>>, j: Json) returns (r: Result<Value>)
    ensures r == FirstSuccess(seq(|decs|, i requires 0 <= i < |decs| => decs[i](j)))
  {
    ghost var rs := seq(|decs|, i requires 0 <= i < |decs| => decs[i](j));
    var errs: seq<Error> := [];
    for i := 0 to |decs|
      invariant |errs| == i && forall k :: 0 <= k < i ==> rs[k] == Err(errs[k])
    {
      match decs[i](j) {
        case Ok(v) =>
          assert rs[i] == Ok(v);
          return Ok(v);
        case Err(e) => errs := errs + [e];
      }
    }
    assert errs == seq(|rs|, i requires 0 <= i < |rs| => if rs[i].Err? then rs[i].error else BadIndex);
    return Err(AllFailed(errs));
  }

  /** Refine: one wrapper per constraint, innermost first. */
  method RefineAll(c: Codec, checks: seq<Value -> bool>) returns (r: Codec)
    ensures r == Refined(c, checks)
  {
    r := c;
    for i := 0 to |checks|
      invariant r == Refined(c, checks[..i])
    {
      assert checks[..i + 1][..i] == checks[..i];
      r := Refine(r, checks[i]);
    }
    assert checks[..|checks|] == checks;
  }

  ghost function Refined(c: Codec, checks: seq<Value -> bool>): Codec {
    if checks == [] then c else Refine(Refined(c, checks[..|checks| - 1]), checks[|checks| - 1])
  }

  ghost predicate Passes(checks: seq<Value -> bool>, v: Value) {
    forall i :: 0 <= i < |checks| ==> checks[i](v)
  }

  lemma PassesSnoc(checks: seq<Value -> bool>, v: Value)
    requires checks != []
    ensures Passes(checks, v) <==> Passes(checks[..|checks| - 1], v) && checks[|checks| - 1](v)
  {
  }

  lemma RefineEncodes(c: Codec, check: Value -> bool, v: Value, j: Json)
    ensures Encode(Refine(c, check), v) == Ok(j) <==> Encode(c, v) == Ok(j) && check(v)
  {
  }

  lemma RefineDecodes(c: Codec, check: Value -> bool, v: Value, j: Json)
    ensures Decode(Refine(c, check), j) == Ok(v) <==> Decode(c, j) == Ok(v) && check(v)
  {
  }

  /** A refined codec is its base restricted to the values every constraint accepts, in both
      directions. */
  lemma {:induction false} RefinedIsRestriction(c: Codec, checks: seq<Value -> bool>, v: Value, j: Json)
    ensures Encode(Refined(c, checks), v) == Ok(j) <==> Encode(c, v) == Ok(j) && Passes(checks, v)
    ensures Decode(Refined(c, checks), j) == Ok(v) <==> Decode(c, j) == Ok(v) && Passes(checks, v)
  {
    if checks == [] {
    } else {
      var n := |checks| - 1;
      RefinedIsRestriction(c, checks[..n], v, j);
      RefineEncodes(Refined(c, checks[..n]), checks[n], v, j);
      RefineDecodes(Refined(c, checks[..n]), checks[n], v, j);
      PassesSnoc(checks, v);
    }
  }
}
