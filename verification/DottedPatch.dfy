/** Patches keyed by dotted paths: BuildDottedPatch and ApplyDottedPatch. */
module DottedPatch {
  import opened Wire
  import opened DeepMerging

  // ---- Splitting paths ----

  /** strings.Cut(s, "."): the text before the first dot, the text after it, whether there is one. */
  function Cut(s: string): (r: (string, string, bool))
    ensures '.' !in r.0
    ensures if r.2 then s == r.0 + "." + r.1 else s == r.0 && r.1 == ""
  {
    if s == "" then ("", "", false)
    else if s[0] == '.' then ("", s[1..], true)
    else
      var (before, after, found) := Cut(s[1..]);
      ([s[0]] + before, after, found)
  }

  /** strings.Split(s, "."). */
  function Split(s: string): (segs: seq<string>)
    ensures segs != []
    decreases |s|
  {
    var (before, after, found) := Cut(s);
    if found then [before] + Split(after) else [before]
  }

  function Join(segs: seq<string>): string
    requires segs != []
  {
    if |segs| == 1 then segs[0] else segs[0] + "." + Join(segs[1..])
  }

  /** Splitting loses nothing and leaves no dot inside a segment. */
  lemma {:induction false} JoinSplit(s: string)
    ensures Join(Split(s)) == s
    ensures forall seg | seg in Split(s) :: '.' !in seg
    decreases |s|
  {
    var (before, after, found) := Cut(s);
    if !found {
    } else {
      JoinSplit(after);
      assert Split(s)[1..] == Split(after);
    }
  }

  lemma {:induction false} CutFirst(seg: string, rest: string)
    requires '.' !in seg
    ensures Cut(seg + "." + rest) == (seg, rest, true)
    ensures Cut(seg) == (seg, "", false)
  {
    if seg == "" {
      assert seg + "." + rest == "." + rest;
    } else {
      CutFirst(seg[1..], rest);
      assert (seg + "." + rest)[1..] == seg[1..] + "." + rest;
      assert [seg[0]] + seg[1..] == seg;
    }
  }

  /** Every list of dot-free segments is the split of its own join. */
  lemma {:induction false} SplitJoin(segs: seq<string>)
    requires segs != [] && forall seg | seg in segs :: '.' !in seg
    ensures Split(Join(segs)) == segs
  {
    if |segs| == 1 {
      CutFirst(segs[0], "");
    } else {
      SplitJoin(segs[1..]);
      CutFirst(segs[0], Join(segs[1..]));
    }
  }

  /** The keys a patch path descends through. A path ending in its first dot is unwrapped,
      so "a" and "a." name the same place. */
  function EffectivePath(path: string): (segs: seq<string>)
    ensures segs != []
  {
    var (key, rest, found) := Cut(path);
    if found && rest != "" then [key] + Split(rest) else [key]
  }

  /** The effective path is the split path, except that a lone trailing dot adds no segment. */
  lemma EffectivePathIsSplit(path: string)
    ensures var segs := Split(path);
            EffectivePath(path) == if |segs| == 2 && segs[1] == "" then [segs[0]] else segs
  {
    var (key, rest, found) := Cut(path);
    if found {
      JoinSplit(rest);
      assert Split(path) == [key] + Split(rest);
    }
  }

  /** Only the trailing dot of a one-segment path is ever lost. */
  lemma EffectivePathsCollideIff(p: string, q: string)
    ensures EffectivePath(p) == EffectivePath(q) <==>
              p == q || ('.' !in p && q == p + ".") || ('.' !in q && p == q + ".")
  {
    var (kp, rp, fp) := Cut(p);
    var (kq, rq, fq) := Cut(q);
    JoinSplit(rp);
    JoinSplit(rq);
    if '.' !in p {
      CutFirst(p, "");
      assert p + "." + "" == p + ".";
    }
    if '.' !in q {
      CutFirst(q, "");
      assert q + "." + "" == q + ".";
    }
    if EffectivePath(p) == EffectivePath(q) {
      assert kp == EffectivePath(p)[0] == EffectivePath(q)[0] == kq;
      assert fp && rp != "" ==> EffectivePath(p)[1..] == Split(rp);
      assert fq && rq != "" ==> EffectivePath(q)[1..] == Split(rq);
    }
  }

  // ---- One patch entry ----

  /** value wrapped in one single-key object per segment. */
  function Wrap(segs: seq<string>, value: Json): Json {
    if segs == [] then value else Obj(map[segs[0] := Wrap(segs[1..], value)])
  }

  method BuildDottedPatch(path: string, value: Json) returns (result: Json)
    ensures result == if path == "" then value else Wrap(Split(path), value)
  {
    if path == "" {
      return value;
    }
    var segments := Split(path);
    result := value;
    var i := |segments|;
    while i > 0
      invariant 0 <= i <= |segments|
      invariant result == Wrap(segments[i..], value)
    {
      i := i - 1;
      result := Obj(map[segments[i] := result]);
      assert segments[i..][1..] == segments[i + 1..];
    }
    assert segments[0..] == segments;
  }

  /** What one iteration of ApplyDottedPatch makes of the result map. */
  function ApplyEntry(result: map<string, Json>, path: string, value: Json): map<string, Json> {
    var (key, rest, found) := Cut(path);
    var nested := if !found || rest == "" then value else Wrap(Split(rest), value);
    result[key := Merge(At(result, key), nested)]
  }

  /** One iteration merges the value, wrapped in its effective path, over the whole document. */
  lemma {:induction false} ApplyEntryIsMerge(result: map<string, Json>, path: string, value: Json)
    ensures Obj(ApplyEntry(result, path, value)) == Merge(Obj(result), Wrap(EffectivePath(path), value))
  {
    hide Split;
    var segs := EffectivePath(path);
    var (key, rest, found) := Cut(path);
    assert segs[1..] == if found && rest != "" then Split(rest) else [];
    var w := Wrap(segs, value);
    assert w.m == map[key := Wrap(segs[1..], value)];
    assert ApplyEntry(result, path, value) == Merge(Obj(result), w).m;
  }

  // ---- The whole patch ----

  type Entry = (string, Json)

  /** The given entries applied one after the other. */
  function ApplyInOrder(base: map<string, Json>, entries: seq<Entry>): map<string, Json> {
    if entries == [] then base
    else
      var last := entries[|entries| - 1];
      ApplyEntry(ApplyInOrder(base, entries[..|entries| - 1]), last.0, last.1)
  }

  predicate DistinctPaths(entries: seq<Entry>) {
    forall j, k | 0 <= j < k < |entries| :: entries[j].0 != entries[k].0
  }

  /** entries lists each entry of the patch exactly once: a possible run of Go's map iteration. */
  ghost predicate Enumerates(entries: seq<Entry>, patch: map<string, Json>) {
    && DistinctPaths(entries)
    && (forall e :: e in entries <==> e.0 in patch && patch[e.0] == e.1)
  }

  lemma ApplySnoc(base: map<string, Json>, entries: seq<Entry>, e: Entry)
    ensures ApplyInOrder(base, entries + [e]) == ApplyEntry(ApplyInOrder(base, entries), e.0, e.1)
  {
    assert (entries + [e])[..|entries|] == entries;
  }

  // ---- Order independence ----

  /** What an entry merges over the document. */
  function EntryPatch(e: Entry): Json {
    Wrap(EffectivePath(e.0), e.1)
  }

  /** The entries under different keys agree wherever they meet. */
  predicate Agree(entries: seq<Entry>) {
    forall e, f | e in entries && f in entries && e.0 != f.0 :: Compatible(EntryPatch(e), EntryPatch(f))
  }

  predicate AllCompatible(patch: map<string, Json>) {
    forall p, q | p in patch && q in patch && p != q :: Compatible(EntryPatch((p, patch[p])), EntryPatch((q, patch[q])))
  }

  /** Two entries may change places exactly when they are compatible. */
  lemma EntriesCommuteIff(m: map<string, Json>, e: Entry, f: Entry)
    ensures ApplyEntry(ApplyEntry(m, e.0, e.1), f.0, f.1) == ApplyEntry(ApplyEntry(m, f.0, f.1), e.0, e.1) <==>
              Compatible(EntryPatch(e), EntryPatch(f))
  {
    ApplyEntryIsMerge(m, e.0, e.1);
    ApplyEntryIsMerge(m, f.0, f.1);
    ApplyEntryIsMerge(ApplyEntry(m, e.0, e.1), f.0, f.1);
    ApplyEntryIsMerge(ApplyEntry(m, f.0, f.1), e.0, e.1);
    MergesCommuteIff(Obj(m), EntryPatch(e), EntryPatch(f));
  }

  /** An entry compatible with all the later ones may as well be applied last. */
  lemma {:induction false} PostponeEntry(base: map<string, Json>, pre: seq<Entry>, e: Entry, post: seq<Entry>)
    requires forall f | f in post :: Compatible(EntryPatch(e), EntryPatch(f))
    ensures ApplyInOrder(base, pre + [e] + post) == ApplyEntry(ApplyInOrder(base, pre + post), e.0, e.1)
    decreases |post|
  {
    if post == [] {
      ApplySnoc(base, pre, e);
      assert pre + [e] + post == pre + [e] && pre + post == pre;
    } else {
      var init, last := post[..|post| - 1], post[|post| - 1];
      assert pre + [e] + post == (pre + [e] + init) + [last] && pre + post == (pre + init) + [last];
      ApplySnoc(base, pre + [e] + init, last);
      ApplySnoc(base, pre + init, last);
      PostponeEntry(base, pre, e, init);
      EntriesCommuteIff(ApplyInOrder(base, pre + init), e, last);
    }
  }

  lemma WithoutOne(entries: seq<Entry>, pre: seq<Entry>, e: Entry, post: seq<Entry>)
    requires entries == pre + [e] + post && DistinctPaths(entries)
    ensures DistinctPaths(pre + post)
    ensures forall f :: f in pre + post <==> f in entries && f != e
  {
    var n := |pre|;
    assert entries[n] == e;
    assert forall i | 0 <= i < |pre + post| :: (pre + post)[i] == entries[if i < n then i else i + 1];
    forall f | f in entries && f != e ensures f in pre + post {
      var i :| 0 <= i < |entries| && entries[i] == f;
      assert (pre + post)[if i < n then i else i - 1] == f;
    }
  }

  lemma SplitAround(entries: seq<Entry>, i: int)
    requires 0 <= i < |entries|
    ensures entries == entries[..i] + [entries[i]] + entries[i + 1..]
  {}

  lemma TakeOut(entries: seq<Entry>, e: Entry) returns (pre: seq<Entry>, post: seq<Entry>)
    requires DistinctPaths(entries) && Agree(entries) && e in entries
    ensures entries == pre + [e] + post && DistinctPaths(pre + post) && Agree(pre + post)
    ensures forall f :: f in pre + post <==> f in entries && f != e
    ensures forall f | f in post :: Compatible(EntryPatch(e), EntryPatch(f))
  {
    var i :| 0 <= i < |entries| && entries[i] == e;
    pre, post := entries[..i], entries[i + 1..];
    SplitAround(entries, i);
    WithoutOne(entries, pre, e, post);
    forall f | f in post ensures Compatible(EntryPatch(e), EntryPatch(f)) {
      assert f in pre + post;
    }
  }

  lemma {:induction false} SameEntriesSameResult(base: map<string, Json>, o1: seq<Entry>, o2: seq<Entry>)
    requires DistinctPaths(o1) && DistinctPaths(o2) && Agree(o1) && Agree(o2) && forall e :: e in o1 <==> e in o2
    ensures ApplyInOrder(base, o1) == ApplyInOrder(base, o2)
    decreases |o1|
  {
    assert o2 != [] ==> o2[0] in o2;
    if o1 == [] {
    } else {
      var e := o1[0];
      assert e in o1;
      var pre1, post1 := TakeOut(o1, e);
      var pre2, post2 := TakeOut(o2, e);
      PostponeEntry(base, pre1, e, post1);
      PostponeEntry(base, pre2, e, post2);
      SameEntriesSameResult(base, pre1 + post1, pre2 + post2);
    }
  }

  /** Some order in which a map iteration can visit the given keys. */
  lemma {:induction false} SomeOrder(patch: map<string, Json>, keys: set<string>) returns (order: seq<Entry>)
    requires keys <= patch.Keys
    ensures DistinctPaths(order) && forall e :: e in order <==> e.0 in keys && patch[e.0] == e.1
    decreases keys
  {
    if keys == {} {
      order := [];
    } else {
      var k :| k in keys;
      order := SomeOrder(patch, keys - {k});
      order := order + [(k, patch[k])];
    }
  }

  lemma WithTwoMore(patch: map<string, Json>, rest: seq<Entry>, p: string, q: string)
    requires p in patch && q in patch && p != q
    requires DistinctPaths(rest) && forall e :: e in rest <==> e.0 in patch.Keys - {p, q} && patch[e.0] == e.1
    ensures Enumerates(rest + [(p, patch[p])] + [(q, patch[q])], patch)
  {
    var e, f := (p, patch[p]), (q, patch[q]);
    assert forall i :: 0 <= i < |rest| ==> rest[i] in rest;
    forall x ensures x in rest + [e] + [f] <==> x.0 in patch && patch[x.0] == x.1 {
      assert x in rest + [e] + [f] <==> x in rest || x == e || x == f;
    }
  }

  /** The order of the two last entries shows when they clash. */
  lemma ClashShows(base: map<string, Json>, patch: map<string, Json>, p: string, q: string)
    returns (o1: seq<Entry>, o2: seq<Entry>)
    requires p in patch && q in patch && p != q
    requires !Compatible(EntryPatch((p, patch[p])), EntryPatch((q, patch[q])))
    ensures Enumerates(o1, patch) && Enumerates(o2, patch) && ApplyInOrder(base, o1) != ApplyInOrder(base, o2)
  {
    var rest := SomeOrder(patch, patch.Keys - {p, q});
    var e, f := (p, patch[p]), (q, patch[q]);
    o1, o2 := rest + [e] + [f], rest + [f] + [e];
    WithTwoMore(patch, rest, p, q);
    WithTwoMore(patch, rest, q, p);
    ApplySnoc(base, rest, e);
    ApplySnoc(base, rest + [e], f);
    ApplySnoc(base, rest, f);
    ApplySnoc(base, rest + [f], e);
    EntriesCommuteIff(ApplyInOrder(base, rest), e, f);
  }

  lemma OrderDoesNotMatter(base: map<string, Json>, patch: map<string, Json>, o1: seq<Entry>, o2: seq<Entry>)
    requires AllCompatible(patch) && Enumerates(o1, patch) && Enumerates(o2, patch)
    ensures ApplyInOrder(base, o1) == ApplyInOrder(base, o2)
  {
    SameEntriesSameResult(base, o1, o2);
  }

  ghost predicate SameForEveryOrder(base: map<string, Json>, patch: map<string, Json>) {
    forall o1, o2 :: Enumerates(o1, patch) && Enumerates(o2, patch) ==> ApplyInOrder(base, o1) == ApplyInOrder(base, o2)
  }

  /** On any base, the patched document is the same for every order of the map iteration exactly when
      the patch's entries are pairwise compatible. */
  lemma OrderDoesNotMatterIff(base: map<string, Json>, patch: map<string, Json>)
    ensures SameForEveryOrder(base, patch) <==> AllCompatible(patch)
  {
    if AllCompatible(patch) {
      forall o1, o2 | Enumerates(o1, patch) && Enumerates(o2, patch)
        ensures ApplyInOrder(base, o1) == ApplyInOrder(base, o2)
      {
        OrderDoesNotMatter(base, patch, o1, o2);
      }
    } else {
      var p, q :| p in patch && q in patch && p != q && !Compatible(EntryPatch((p, patch[p])), EntryPatch((q, patch[q])));
      var o1, o2 := ClashShows(base, patch, p, q);
      assert Enumerates(o1, patch) && Enumerates(o2, patch);
    }
  }

  // ---- Paths beside each other ----

  predicate Incomparable(s: seq<string>, t: seq<string>) {
    !(s <= t) && !(t <= s)
  }

  /** No patched path lies on the way to another one. */
  predicate Independent(patch: map<string, Json>) {
    forall p, q | p in patch && q in patch && p != q :: Incomparable(EffectivePath(p), EffectivePath(q))
  }

  lemma {:induction false} BesideIsCompatible(s: seq<string>, v: Json, t: seq<string>, w: Json)
    requires Incomparable(s, t)
    ensures Compatible(Wrap(s, v), Wrap(t, w))
    decreases |s|
  {
    if s[0] != t[0] {
    } else {
      assert s == [s[0]] + s[1..] && t == [t[0]] + t[1..];
      BesideIsCompatible(s[1..], v, t[1..], w);
    }
  }

  /** Paths beside each other never clash, whatever their values. */
  lemma IndependentIsCompatible(patch: map<string, Json>)
    requires Independent(patch)
    ensures AllCompatible(patch)
  {
    forall p, q | p in patch && q in patch && p != q
      ensures Compatible(EntryPatch((p, patch[p])), EntryPatch((q, patch[q])))
    {
      BesideIsCompatible(EffectivePath(p), patch[p], EffectivePath(q), patch[q]);
    }
  }

  lemma PathsOfTheExamples()
    ensures EffectivePath("a") == ["a"] == EffectivePath("a.") && EffectivePath("a.b") == ["a", "b"]
  {
    CutFirst("a", "b");
    CutFirst("b", "");
    CutFirst("a", "");
    assert "a" + "." + "b" == "a.b" && "a" + "." + "" == "a.";
  }

  /** With two entries everything hangs on whether they agree. */
  lemma TwoEntries(base: map<string, Json>, p: string, v: Json, q: string, w: Json)
    requires p != q
    ensures SameForEveryOrder(base, map[p := v, q := w]) <==>
              Compatible(Wrap(EffectivePath(p), v), Wrap(EffectivePath(q), w))
  {
    OrderDoesNotMatterIff(base, map[p := v, q := w]);
    TwoAgree(p, v, q, w);
  }

  lemma TwoAgree(p: string, v: Json, q: string, w: Json)
    requires p != q
    ensures AllCompatible(map[p := v, q := w]) <==> Compatible(EntryPatch((p, v)), EntryPatch((q, w)))
  {
    var patch := map[p := v, q := w];
    CompatibleSymmetric(EntryPatch((p, v)), EntryPatch((q, w)));
    assert p in patch && q in patch && patch[p] == v && patch[q] == w;
  }

  lemma WrappedAt(k: string, rest: seq<string>, v: Json)
    ensures Wrap([k] + rest, v) == Obj(map[k := Wrap(rest, v)])
  {
    assert ([k] + rest)[1..] == rest;
  }

  /** Overlapping paths clash unless their values leave room: a scalar above another entry, or two
      spellings of one path, make the order show on every base; an empty object above does not. */
  lemma OverlappingPaths(base: map<string, Json>)
    ensures !SameForEveryOrder(base, map["a" := Num(1), "a.b" := Num(2)])
    ensures !SameForEveryOrder(base, map["a" := Num(1), "a." := Num(2)])
    ensures SameForEveryOrder(base, map["a" := Obj(map[]), "a.b" := Num(2)])
  {
    PathsOfTheExamples();
    TwoEntries(base, "a", Num(1), "a.b", Num(2));
    TwoEntries(base, "a", Num(1), "a.", Num(2));
    TwoEntries(base, "a", Obj(map[]), "a.b", Num(2));
    ClashesOfTheExamples();
  }

  lemma ClashesOfTheExamples()
    ensures !Compatible(Wrap(["a"], Num(1)), Wrap(["a", "b"], Num(2)))
    ensures !Compatible(Wrap(["a"], Num(1)), Wrap(["a"], Num(2)))
    ensures Compatible(Wrap(["a"], Obj(map[])), Wrap(["a", "b"], Num(2)))
  {
    WrappedAt("a", [], Num(1));
    WrappedAt("a", [], Num(2));
    WrappedAt("a", [], Obj(map[]));
    WrappedAt("a", ["b"], Num(2));
    WrappedAt("b", [], Num(2));
    assert ["a"] == ["a"] + [] && ["a", "b"] == ["a"] + ["b"] && ["b"] == ["b"] + [];
    var one, two, below := Wrap(["a"], Num(1)), Wrap(["a"], Num(2)), Wrap(["a", "b"], Num(2));
    assert "a" in one.m && one.m["a"] == Num(1) && "a" in two.m && two.m["a"] == Num(2);
    assert "a" in below.m && below.m["a"].Obj?;
    assert !Compatible(one.m["a"], two.m["a"]) && !Compatible(one.m["a"], below.m["a"]);
  }

  /** ApplyDottedPatch applies every entry of the patch once, in some order; when the entries are
      compatible the result is that of every order. */
  method ApplyDottedPatch(base: map<string, Json>, patch: map<string, Json>) returns (result: map<string, Json>)
    ensures exists order :: Enumerates(order, patch) && result == ApplyInOrder(base, order)
    ensures AllCompatible(patch) ==> forall order :: Enumerates(order, patch) ==> result == ApplyInOrder(base, order)
  {
    result := base;
    ghost var order: seq<Entry> := [];
    var todo := patch.Keys;
    while todo != {}
      invariant todo <= patch.Keys
      invariant DistinctPaths(order)
      invariant forall e :: e in order <==> e.0 in patch.Keys - todo && patch[e.0] == e.1
      invariant result == ApplyInOrder(base, order)
    {
      var path :| path in todo;
      var (key, rest, found) := Cut(path);
      var nested := patch[path];
      if found {
        nested := BuildDottedPatch(rest, nested);
      }
      var merged := DeepMergeAny(At(result, key), nested);
      result := result[key := merged];
      ApplySnoc(base, order, (path, patch[path]));
      order := order + [(path, patch[path])];
      todo := todo - {path};
    }
    assert Enumerates(order, patch);
    if AllCompatible(patch) {
      forall other | Enumerates(other, patch) ensures result == ApplyInOrder(base, other) {
        OrderDoesNotMatter(base, patch, order, other);
      }
    }
  }

  // ---- What the result holds ----

  /** A place beside the patched path is as before. */
  lemma {:induction false} GetBeside(doc: Json, s: seq<string>, v: Json, q: seq<string>)
    requires Incomparable(s, q)
    ensures Get(Merge(doc, Wrap(s, v)), q) == Get(doc, q)
    decreases |s|
  {
    if s[0] != q[0] {
    } else {
      GetBeside(if doc.Obj? then At(doc.m, s[0]) else Null, s[1..], v, q[1..]);
    }
  }

  /** A place at the patched path or below it is where the merged value has it. */
  lemma {:induction false} GetBelow(doc: Json, s: seq<string>, v: Json, q: seq<string>)
    requires s <= q
    ensures Get(Merge(doc, Wrap(s, v)), q) == Get(Merge(GetOrNull(doc, s), v), q[|s|..])
    decreases |s|
  {
    if s == [] {
      assert q[0..] == q;
    } else {
      var x := if doc.Obj? then At(doc.m, s[0]) else Null;
      GetBelow(x, s[1..], v, q[1..]);
      assert Merge(x, Wrap(s[1..], v)) == Merge(doc, Wrap(s, v)).m[s[0]];
      assert q[1..][|s[1..]|..] == q[|s|..];
      assert GetOrNull(doc, s) == GetOrNull(x, s[1..]);
    }
  }

  lemma {:induction false} GetAfterOrder(base: map<string, Json>, entries: seq<Entry>, q: seq<string>)
    requires forall e | e in entries :: Incomparable(EffectivePath(e.0), q)
    ensures Get(Obj(ApplyInOrder(base, entries)), q) == Get(Obj(base), q)
    decreases |entries|
  {
    if entries == [] {
    } else {
      var init, e := entries[..|entries| - 1], entries[|entries| - 1];
      var m := ApplyInOrder(base, init);
      GetAfterOrder(base, init, q);
      ApplyEntryIsMerge(m, e.0, e.1);
      GetBeside(Obj(m), EffectivePath(e.0), e.1, q);
    }
  }

  lemma PatchedPath(base: map<string, Json>, patch: map<string, Json>, order: seq<Entry>, p: string)
    requires Independent(patch) && Enumerates(order, patch) && p in patch
    ensures Get(Obj(ApplyInOrder(base, order)), EffectivePath(p)) ==
            Some(Merge(GetOrNull(Obj(base), EffectivePath(p)), patch[p]))
  {
    var e, s := (p, patch[p]), EffectivePath(p);
    assert e in order;
    var i :| 0 <= i < |order| && order[i] == e;
    var pre, post := order[..i], order[i + 1..];
    SplitAround(order, i);
    forall f | f in pre || f in post ensures Incomparable(s, EffectivePath(f.0)) && f.0 in patch {
      assert f in order;
    }
    forall f | f in post ensures Compatible(EntryPatch(e), EntryPatch(f)) {
      BesideIsCompatible(s, patch[p], EffectivePath(f.0), f.1);
    }
    PostponeEntry(base, pre, e, post);
    var before := ApplyInOrder(base, pre + post);
    ApplyEntryIsMerge(before, p, patch[p]);
    GetBelow(Obj(before), s, patch[p], s);
    assert s[|s|..] == [];
    GetAfterOrder(base, pre + post, s);
  }

  /** Each patched path holds its value merged over what the base had there, and every place
      beside all patched paths is as in the base, whatever the iteration order. */
  lemma PatchedDocument(base: map<string, Json>, patch: map<string, Json>, order: seq<Entry>)
    requires Independent(patch) && Enumerates(order, patch)
    ensures forall p | p in patch ::
              Get(Obj(ApplyInOrder(base, order)), EffectivePath(p)) ==
              Some(Merge(GetOrNull(Obj(base), EffectivePath(p)), patch[p]))
    ensures forall q | (forall p | p in patch :: Incomparable(EffectivePath(p), q)) ::
              Get(Obj(ApplyInOrder(base, order)), q) == Get(Obj(base), q)
  {
    forall p | p in patch
      ensures Get(Obj(ApplyInOrder(base, order)), EffectivePath(p)) ==
              Some(Merge(GetOrNull(Obj(base), EffectivePath(p)), patch[p]))
    {
      PatchedPath(base, patch, order, p);
    }
    forall q | (forall p | p in patch :: Incomparable(EffectivePath(p), q))
      ensures Get(Obj(ApplyInOrder(base, order)), q) == Get(Obj(base), q)
    {
      GetAfterOrder(base, order, q);
    }
  }

  /** A patched value that is not an object replaces whatever was there. */
  lemma PatchedScalar(base: map<string, Json>, patch: map<string, Json>, order: seq<Entry>, p: string)
    requires Independent(patch) && Enumerates(order, patch)
    requires p in patch && !patch[p].Obj?
    ensures Get(Obj(ApplyInOrder(base, order)), EffectivePath(p)) == Some(patch[p])
  {
    PatchedPath(base, patch, order, p);
  }
}
