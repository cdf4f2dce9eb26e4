/** Go maps as cells of a heap: the in-place DeepMerge, the copying deepMergeAny and
    ApplyDottedPatch, with the sharing they introduce. */
module HeapMerge {
  import opened Wire
  import opened DeepMerging
  import DP = DottedPatch

  /** A Go `any`: a map is a reference to a cell, everything else is a value. */
  datatype Ref = Value(j: Json) | Map(loc: int)

  type Cell = map<string, Ref>
  type Cells = map<int, Cell>

  /** The finite unfolding of a reference: which cell sits where. */
  datatype Tree =
    | Leaf(j: Json)
    | Node(loc: int, kids: map<string, Tree>)
  {
    function Root(): Ref {
      match this case Leaf(j) => Value(j) case Node(n, _) => Map(n)
    }

    function Locs(): set<int> {
      match this
      case Leaf(_) => {}
      case Node(n, kids) => {n} + set k, x | k in kids && x in kids[k].Locs() :: x
    }

    /** The document the tree denotes. */
    function Doc(): Json {
      match this
      case Leaf(j) => j
      case Node(_, kids) => Obj(map k | k in kids :: kids[k].Doc())
    }

    /** The heap agrees with the tree, and leaves hold no object. */
    predicate Holds(cells: Cells) {
      match this
      case Leaf(j) => !j.Obj?
      case Node(n, kids) =>
        && n in cells && cells[n].Keys == kids.Keys
        && forall k | k in kids :: cells[n][k] == kids[k].Root() && kids[k].Holds(cells)
    }

    /** No cell is reachable twice. */
    predicate Unshared() {
      match this
      case Leaf(_) => true
      case Node(n, kids) =>
        && (forall k | k in kids :: n !in kids[k].Locs() && kids[k].Unshared())
        && (forall k, l | k in kids && l in kids && k != l :: kids[k].Locs() !! kids[l].Locs())
    }
  }

  predicate SameAt(locs: set<int>, before: Cells, after: Cells) {
    forall n | n in locs && n in before :: n in after && after[n] == before[n]
  }

  lemma {:induction false} HoldsFrame(t: Tree, before: Cells, after: Cells)
    requires t.Holds(before) && SameAt(t.Locs(), before, after)
    ensures t.Holds(after)
  {
    if !t.Node? {
    } else {
      forall k | k in t.kids ensures t.kids[k].Holds(after) {
        assert t.kids[k].Locs() <= t.Locs();
        HoldsFrame(t.kids[k], before, after);
      }
      assert t.loc in t.Locs();
    }
  }

  lemma {:induction false} LocsAllocated(t: Tree, cells: Cells)
    requires t.Holds(cells)
    ensures t.Locs() <= cells.Keys
  {
    if !t.Node? {
    } else {
      forall k | k in t.kids ensures t.kids[k].Locs() <= cells.Keys { LocsAllocated(t.kids[k], cells); }
    }
  }

  // ---- DeepMerge in place ----

  /** The tree DeepMerge leaves behind: dst's cells where both sides have a map,
      src's own subtrees where it assigned them. */
  function MergedTree(dst: Tree, src: Tree): Tree
    decreases src
  {
    if dst.Node? && src.Node? then
      Node(dst.loc, map k | k in dst.kids.Keys + src.kids.Keys ::
             if k !in src.kids then dst.kids[k]
             else if k !in dst.kids then src.kids[k]
             else MergedTree(dst.kids[k], src.kids[k]))
    else src
  }

  lemma {:induction false} MergedTreeDoc(cells: Cells, dst: Tree, src: Tree)
    requires dst.Holds(cells) && src.Holds(cells)
    ensures MergedTree(dst, src).Doc() == Merge(dst.Doc(), src.Doc())
    decreases src
  {
    if !dst.Node? || !src.Node? {
    } else {
      forall k | k in src.kids && k in dst.kids
        ensures MergedTree(dst.kids[k], src.kids[k]).Doc() == Merge(dst.kids[k].Doc(), src.kids[k].Doc())
      {
        MergedTreeDoc(cells, dst.kids[k], src.kids[k]);
      }
      assert MergedTree(dst, src).Doc().m == Merge(dst.Doc(), src.Doc()).m;
    }
  }

  lemma {:induction false} MergedTreeLocs(dst: Tree, src: Tree)
    ensures MergedTree(dst, src).Locs() <= dst.Locs() + src.Locs()
    decreases src
  {
    if !dst.Node? || !src.Node? {
    } else {
      forall k | k in src.kids && k in dst.kids
        ensures MergedTree(dst.kids[k], src.kids[k]).Locs() <= dst.kids[k].Locs() + src.kids[k].Locs()
      {
        MergedTreeLocs(dst.kids[k], src.kids[k]);
      }
    }
  }

  /** What dst[k] denotes while the source keys in todo are still to be merged. */
  function Child(d: Tree, s: Tree, todo: set<string>, k: string): Tree
    requires d.Node? && s.Node? && (k in d.kids || (k in s.kids && k !in todo))
  {
    if k !in s.kids || k in todo then d.kids[k]
    else if k in d.kids then MergedTree(d.kids[k], s.kids[k])
    else s.kids[k]
  }

  /** The heap in the middle of the loop over src. */
  predicate Merging(d: Tree, s: Tree, todo: set<string>, cells: Cells)
    requires d.Node? && s.Node?
  {
    && d.loc in cells
    && cells[d.loc].Keys == d.kids.Keys + (s.kids.Keys - todo)
    && forall k | k in cells[d.loc] ::
         cells[d.loc][k] == Child(d, s, todo, k).Root() && Child(d, s, todo, k).Holds(cells)
  }

  /** Children other than k reach neither dst's own cell nor anything below d.kids[k]. */
  lemma ChildApart(d: Tree, s: Tree, todo: set<string>, k: string, l: string)
    requires d.Node? && s.Node? && (l in d.kids || (l in s.kids && l !in todo)) && k != l
    requires d.Unshared() && d.Locs() !! s.Locs()
    ensures d.loc !in Child(d, s, todo, l).Locs()
    ensures k in d.kids ==> Child(d, s, todo, l).Locs() !! d.kids[k].Locs()
  {
    if l in d.kids && l in s.kids { MergedTreeLocs(d.kids[l], s.kids[l]); }
    assert d.loc in d.Locs();
    assert l in s.kids ==> s.kids[l].Locs() <= s.Locs();
    assert k in d.kids ==> d.kids[k].Locs() <= d.Locs();
  }

  /** A child other than k, while k is merged. */
  lemma ChildKept(d: Tree, s: Tree, todo: set<string>, k: string, l: string, before: Cells, after: Cells)
    requires d.Node? && s.Node? && (l in d.kids || (l in s.kids && l !in todo)) && k != l
    requires d.Unshared() && d.Locs() !! s.Locs()
    requires Child(d, s, todo, l).Holds(before)
    requires var dk := if k in d.kids then d.kids[k].Locs() else {};
             SameAt(before.Keys - dk - {d.loc}, before, after)
    ensures Child(d, s, todo - {k}, l) == Child(d, s, todo, l) && Child(d, s, todo, l).Holds(after)
  {
    var t := Child(d, s, todo, l);
    ChildApart(d, s, todo, k, l);
    LocsAllocated(t, before);
    HoldsFrame(t, before, after);
  }

  /** One more key merged, the other children kept. */
  lemma EntryMerged(d: Tree, s: Tree, todo: set<string>, k: string, before: Cells, after: Cells)
    requires d.Node? && s.Node? && k in todo && todo <= s.kids.Keys
    requires d.Unshared() && d.Locs() !! s.Locs()
    requires Merging(d, s, todo, before)
    requires var dk := if k in d.kids then d.kids[k].Locs() else {};
             SameAt(before.Keys - dk - {d.loc}, before, after)
    requires Child(d, s, todo - {k}, k).Holds(after)
    requires d.loc in after && after[d.loc] == before[d.loc][k := Child(d, s, todo - {k}, k).Root()]
    ensures Merging(d, s, todo - {k}, after)
  {
    forall l | l in before[d.loc] && l != k
      ensures after[d.loc][l] == Child(d, s, todo - {k}, l).Root() && Child(d, s, todo - {k}, l).Holds(after)
    {
      ChildKept(d, s, todo, k, l, before, after);
    }
  }

  /** An entry of src assigned to dst as it stands. */
  lemma EntryAssigned(d: Tree, s: Tree, todo: set<string>, k: string, before: Cells, after: Cells)
    requires d.Node? && s.Node? && k in todo && todo <= s.kids.Keys
    requires d.Unshared() && d.Locs() !! s.Locs() && s.Holds(before)
    requires Merging(d, s, todo, before)
    requires !(k in d.kids && d.kids[k].Node? && s.kids[k].Node?)
    requires after == before[d.loc := before[d.loc][k := s.kids[k].Root()]]
    ensures s.Holds(after) && Merging(d, s, todo - {k}, after)
  {
    assert d.loc in d.Locs();
    HoldsFrame(s, before, after);
    assert Child(d, s, todo - {k}, k) == s.kids[k];
    EntryMerged(d, s, todo, k, before, after);
  }

  /** An entry that is a map on both sides, merged by the recursive call. */
  lemma EntryDescended(d: Tree, s: Tree, todo: set<string>, k: string, before: Cells, after: Cells)
    requires d.Node? && s.Node? && k in todo && todo <= s.kids.Keys
    requires d.Unshared() && d.Locs() !! s.Locs() && s.Holds(before)
    requires Merging(d, s, todo, before)
    requires k in d.kids && d.kids[k].Node? && s.kids[k].Node?
    requires after.Keys == before.Keys && SameAt(before.Keys - d.kids[k].Locs(), before, after)
    requires MergedTree(d.kids[k], s.kids[k]).Holds(after)
    ensures s.Holds(after) && Merging(d, s, todo - {k}, after)
    ensures SameAt(before.Keys - d.Locs(), before, after)
  {
    assert d.kids[k].Locs() <= d.Locs();
    assert d.loc in before && d.loc !in d.kids[k].Locs();
    assert before[d.loc][k] == Child(d, s, todo, k).Root();
    assert after[d.loc] == before[d.loc][k := before[d.loc][k]];
    HoldsFrame(s, before, after);
    EntryMerged(d, s, todo, k, before, after);
  }

  // ---- What DeepMerge shares ----

  /** src has a map only where dst already has one. */
  predicate NoNewMaps(d: Tree, s: Tree)
    requires d.Node? && s.Node?
    decreases s
  {
    forall k | k in s.kids && s.kids[k].Node? ::
      k in d.kids && d.kids[k].Node? && NoNewMaps(d.kids[k], s.kids[k])
  }

  lemma MergedKid(d: Tree, s: Tree, k: string)
    requires d.Node? && s.Node? && (k in d.kids || k in s.kids)
    ensures k in MergedTree(d, s).kids
    ensures MergedTree(d, s).kids[k] ==
            if k !in s.kids then d.kids[k]
            else if k in d.kids && d.kids[k].Node? && s.kids[k].Node? then MergedTree(d.kids[k], s.kids[k])
            else s.kids[k]
  {}

  lemma {:induction false} NoNewMapsLocs(d: Tree, s: Tree)
    requires d.Node? && s.Node? && NoNewMaps(d, s)
    ensures MergedTree(d, s).Locs() <= d.Locs()
    decreases s
  {
    forall x | x in MergedTree(d, s).Locs() ensures x in d.Locs() {
      if x != d.loc {
        var k :| k in MergedTree(d, s).kids && x in MergedTree(d, s).kids[k].Locs();
        MergedKid(d, s, k);
        if k in s.kids { NoNewMapsLocs(d.kids[k], s.kids[k]); }
        assert d.kids[k].Locs() <= d.Locs();
      }
    }
  }

  /** After DeepMerge, dst shares no cell with src (so that merging into dst again cannot write
      to src) exactly when src brought no map where dst had none. */
  lemma {:induction false} SharesNothingIff(d: Tree, s: Tree)
    requires d.Node? && s.Node? && d.Locs() !! s.Locs()
    ensures MergedTree(d, s).Locs() !! s.Locs() <==> NoNewMaps(d, s)
    decreases s
  {
    if NoNewMaps(d, s) {
      NoNewMapsLocs(d, s);
    } else {
      var k :| k in s.kids && s.kids[k].Node? && !(k in d.kids && d.kids[k].Node? && NoNewMaps(d.kids[k], s.kids[k]));
      MergedKid(d, s, k);
      var t := MergedTree(d, s).kids[k];
      assert t.Locs() <= MergedTree(d, s).Locs() && s.kids[k].Locs() <= s.Locs();
      if k in d.kids && d.kids[k].Node? {
        assert d.kids[k].Locs() <= d.Locs();
        SharesNothingIff(d.kids[k], s.kids[k]);
      } else {
        assert s.kids[k].loc in t.Locs();
      }
    }
  }

  // ---- The copying merges ----

  /** A map being filled: each entry denotes the tree of the same key. */
  predicate Denotes(entries: Cell, kids: map<string, Tree>, cells: Cells) {
    && entries.Keys == kids.Keys
    && forall k | k in kids :: entries[k] == kids[k].Root() && kids[k].Holds(cells)
  }

  lemma DenotesFrame(entries: Cell, kids: map<string, Tree>, before: Cells, after: Cells)
    requires Denotes(entries, kids, before) && SameAt(before.Keys, before, after)
    ensures Denotes(entries, kids, after)
  {
    forall k | k in kids ensures kids[k].Holds(after) { HoldsFrame(kids[k], before, after); }
  }

  lemma DenotesSet(entries: Cell, kids: map<string, Tree>, k: string, t: Tree, cells: Cells)
    requires Denotes(entries, kids, cells) && t.Holds(cells)
    ensures Denotes(entries[k := t.Root()], kids[k := t], cells)
  {}

  /** What Go reads for an absent key: nil. */
  function RefOrNil(cell: Cell, k: string): Ref {
    if k in cell then cell[k] else Value(Null)
  }

  function KidOrNil(kids: map<string, Tree>, k: string): Tree {
    if k in kids then kids[k] else Leaf(Null)
  }

  function Docs(kids: map<string, Tree>): map<string, Json> {
    map k | k in kids :: kids[k].Doc()
  }

  lemma DocsSet(kids: map<string, Tree>, k: string, t: Tree)
    ensures KidOrNil(kids, k).Doc() == At(Docs(kids), k)
    ensures Docs(kids[k := t]) == Docs(kids)[k := t.Doc()]
  {}

  /** The children of the copy while the patch keys in todo are still to be merged. */
  ghost predicate MergedSoFar(b: Tree, p: Tree, todo: set<string>, kids: map<string, Tree>)
    requires b.Node? && p.Node?
  {
    && kids.Keys == b.kids.Keys + (p.kids.Keys - todo)
    && forall k | k in kids ::
         if k in p.kids && k !in todo then kids[k].Doc() == Merge(At(Docs(b.kids), k), p.kids[k].Doc())
         else kids[k] == b.kids[k]
  }

  lemma MergedArgument(b: Tree, p: Tree, todo: set<string>, kids: map<string, Tree>, k: string)
    requires b.Node? && p.Node? && k in todo && todo <= p.kids.Keys && MergedSoFar(b, p, todo, kids)
    ensures KidOrNil(kids, k).Doc() == At(Docs(b.kids), k)
    ensures forall mt: Tree | mt.Doc() == Merge(At(Docs(b.kids), k), p.kids[k].Doc()) ::
              MergedSoFar(b, p, todo - {k}, kids[k := mt])
  {}

  lemma MergedAll(b: Tree, p: Tree, loc: int, kids: map<string, Tree>)
    requires b.Node? && p.Node? && MergedSoFar(b, p, {}, kids)
    ensures Node(loc, kids).Doc() == Merge(b.Doc(), p.Doc())
  {
    assert Node(loc, kids).Doc().m == Merge(b.Doc(), p.Doc()).m;
  }

  lemma SingleKey(loc: int, key: string, t: Tree)
    ensures Node(loc, map[key := t]).Doc() == Obj(map[key := t.Doc()])
    ensures Node(loc, map[key := t]).Locs() == {loc} + t.Locs()
  {
    var n := Node(loc, map[key := t]);
    assert n.Doc().m == map[key := t.Doc()];
    assert n.kids[key] == t;
  }

  class GoHeap {
    var cells: Cells
    var next: int

    predicate Valid()
      reads this
    {
      forall n | n in cells :: n < next
    }

    method Alloc(cell: Cell) returns (loc: int)
      requires Valid()
      modifies this
      ensures Valid() && loc !in old(cells) && cells == old(cells)[loc := cell]
    {
      loc := next;
      cells := cells[loc := cell];
      next := next + 1;
    }

    /** deepMergeAny: the result may share cells with both arguments but writes to none of them. */
    method DeepMergeAny(base: Ref, patch: Ref, ghost b: Tree, ghost p: Tree) returns (r: Ref, ghost t: Tree)
      requires Valid() && b.Root() == base && p.Root() == patch && b.Holds(cells) && p.Holds(cells)
      modifies this
      ensures Valid() && SameAt(old(cells.Keys), old(cells), cells)
      ensures t.Root() == r && t.Holds(cells) && t.Doc() == Merge(b.Doc(), p.Doc())
      decreases p
    {
      if !base.Map? || !patch.Map? {
        return patch, p;
      }
      var result := cells[base.loc];
      ghost var kids := b.kids;
      var todo := cells[patch.loc].Keys;
      while todo != {}
        invariant todo <= p.kids.Keys
        invariant Valid() && SameAt(old(cells.Keys), old(cells), cells)
        invariant p.Holds(cells) && Denotes(result, kids, cells)
        invariant MergedSoFar(b, p, todo, kids)
      {
        var k :| k in todo;
        ghost var before := cells;
        MergedArgument(b, p, todo, kids, k);
        var merged;
        ghost var mt;
        merged, mt := DeepMergeAny(RefOrNil(result, k), cells[patch.loc][k], KidOrNil(kids, k), p.kids[k]);
        HoldsFrame(p, before, cells);
        DenotesFrame(result, kids, before, cells);
        DenotesSet(result, kids, k, mt, cells);
        result, kids := result[k := merged], kids[k := mt];
        todo := todo - {k};
      }
      ghost var before := cells;
      var loc := Alloc(result);
      DenotesFrame(result, kids, before, cells);
      r, t := Map(loc), Node(loc, kids);
      MergedAll(b, p, loc, kids);
    }

    /** One iteration of BuildDottedPatch: a new cell with a single key. */
    method WrapOnce(key: string, r: Ref, ghost t: Tree) returns (r': Ref, ghost t': Tree)
      requires Valid() && t.Root() == r && t.Holds(cells)
      modifies this
      ensures Valid() && SameAt(old(cells.Keys), old(cells), cells)
      ensures t'.Root() == r' && t'.Holds(cells) && t'.Doc() == Obj(map[key := t.Doc()])
      ensures exists loc :: loc !in old(cells) && t'.Locs() == {loc} + t.Locs()
    {
      ghost var before := cells;
      var loc := Alloc(map[key := r]);
      HoldsFrame(t, before, cells);
      r', t' := Map(loc), Node(loc, map[key := t]);
      SingleKey(loc, key, t);
    }

    /** BuildDottedPatch: one new cell per segment. */
    method BuildDottedPatch(path: string, value: Ref, ghost v: Tree) returns (r: Ref, ghost t: Tree)
      requires Valid() && v.Root() == value && v.Holds(cells)
      modifies this
      ensures Valid() && SameAt(old(cells.Keys), old(cells), cells)
      ensures t.Root() == r && t.Holds(cells)
      ensures t.Doc() == if path == "" then v.Doc() else DP.Wrap(DP.Split(path), v.Doc())
      ensures v.Locs() <= t.Locs() && (t.Locs() - v.Locs()) !! old(cells.Keys)
    {
      r, t := value, v;
      if path == "" {
        return;
      }
      var segments := DP.Split(path);
      var i := |segments|;
      while i > 0
        invariant 0 <= i <= |segments|
        invariant Valid() && SameAt(old(cells.Keys), old(cells), cells)
        invariant t.Root() == r && t.Holds(cells) && t.Doc() == DP.Wrap(segments[i..], v.Doc())
        invariant v.Locs() <= t.Locs() && (t.Locs() - v.Locs()) !! old(cells.Keys)
      {
        i := i - 1;
        assert segments[i..][1..] == segments[i + 1..];
        r, t := WrapOnce(segments[i], r, t);
      }
      assert segments[0..] == segments;
    }

    /** One patch entry: the value, wrapped as deep as its path goes, is merged into a copy of the map. */
    method PatchEntry(result: Cell, path: string, value: Ref, ghost kids: map<string, Tree>, ghost v: Tree)
      returns (patched: Cell, ghost now: map<string, Tree>)
      requires Valid() && Denotes(result, kids, cells) && v.Root() == value && v.Holds(cells)
      modifies this
      ensures Valid() && SameAt(old(cells.Keys), old(cells), cells)
      ensures Denotes(patched, now, cells) && Docs(now) == DP.ApplyEntry(Docs(kids), path, v.Doc())
    {
      ghost var before := cells;
      var (key, rest, found) := DP.Cut(path);
      var nested := value;
      ghost var nt := v;
      if found {
        nested, nt := BuildDottedPatch(rest, value, v);
      }
      DenotesFrame(result, kids, before, cells);
      var merged;
      ghost var mt;
      merged, mt := DeepMergeAny(RefOrNil(result, key), nested, KidOrNil(kids, key), nt);
      DenotesFrame(result, kids, before, cells);
      DenotesSet(result, kids, key, mt, cells);
      DocsSet(kids, key, mt);
      patched, now := result[key := merged], kids[key := mt];
    }

    /** ApplyDottedPatch: the new document is the functional one, and no cell that existed
        before the call has changed, although the result reaches many of them. */
    method ApplyDottedPatch(base: int, patch: Cell, ghost b: Tree, ghost p: map<string, Tree>)
      returns (r: int, ghost t: Tree, ghost order: seq<DP.Entry>)
      requires Valid() && b.Node? && b.loc == base && b.Holds(cells) && Denotes(patch, p, cells)
      modifies this
      ensures Valid() && SameAt(old(cells.Keys), old(cells), cells)
      ensures r !in old(cells) && t.Root() == Map(r) && t.Holds(cells)
      ensures DP.Enumerates(order, Docs(p)) && t.Doc() == Obj(DP.ApplyInOrder(b.Doc().m, order))
    {
      var result := cells[base];
      ghost var kids := b.kids;
      order := [];
      var todo := patch.Keys;
      while todo != {}
        invariant todo <= p.Keys
        invariant Valid() && SameAt(old(cells.Keys), old(cells), cells)
        invariant Denotes(patch, p, cells) && Denotes(result, kids, cells)
        invariant DP.DistinctPaths(order)
        invariant forall e :: e in order <==> e.0 in p.Keys - todo && p[e.0].Doc() == e.1
        invariant Docs(kids) == DP.ApplyInOrder(b.Doc().m, order)
      {
        var path :| path in todo;
        ghost var before := cells;
        result, kids := PatchEntry(result, path, patch[path], kids, p[path]);
        DenotesFrame(patch, p, before, cells);
        DP.ApplySnoc(b.Doc().m, order, (path, p[path].Doc()));
        order := order + [(path, p[path].Doc())];
        todo := todo - {path};
      }
      ghost var before := cells;
      r := Alloc(result);
      DenotesFrame(result, kids, before, cells);
      t := Node(r, kids);
    }

    /** DeepMerge(dst, src): every cell it writes is one of dst's, none of src's. */
    method DeepMerge(dst: int, src: int, ghost d: Tree, ghost s: Tree)
      requires d.Node? && d.loc == dst && s.Node? && s.loc == src
      requires d.Holds(cells) && s.Holds(cells) && d.Unshared() && d.Locs() !! s.Locs()
      modifies this
      ensures cells.Keys == old(cells.Keys) && SameAt(old(cells.Keys) - d.Locs(), old(cells), cells)
      ensures s.Holds(cells) && MergedTree(d, s).Holds(cells)
      ensures MergedTree(d, s).Root() == Map(dst)
      ensures MergedTree(d, s).Doc() == Merge(d.Doc(), s.Doc())
      decreases s, 1
    {
      MergedTreeDoc(cells, d, s);
      var todo := cells[src].Keys;
      while todo != {}
        invariant todo <= s.kids.Keys
        invariant cells.Keys == old(cells.Keys) && SameAt(old(cells.Keys) - d.Locs(), old(cells), cells)
        invariant s.Holds(cells) && Merging(d, s, todo, cells)
      {
        var k :| k in todo;
        MergeEntry(dst, src, k, d, s, todo);
        todo := todo - {k};
      }
    }

    /** One iteration of the loop over src. */
    method MergeEntry(dst: int, src: int, k: string, ghost d: Tree, ghost s: Tree, ghost todo: set<string>)
      requires d.Node? && d.loc == dst && s.Node? && s.loc == src
      requires k in todo && todo <= s.kids.Keys
      requires s.Holds(cells) && Merging(d, s, todo, cells) && d.Unshared() && d.Locs() !! s.Locs()
      modifies this
      ensures cells.Keys == old(cells.Keys) && SameAt(old(cells.Keys) - d.Locs(), old(cells), cells)
      ensures s.Holds(cells) && Merging(d, s, todo - {k}, cells)
      decreases s, 0
    {
      ghost var before := cells;
      var sv := cells[src][k];
      assert d.loc in d.Locs();
      assert k in d.kids ==> Child(d, s, todo, k) == d.kids[k];
      if k in cells[dst] && cells[dst][k].Map? && sv.Map? {
        assert d.kids[k].Locs() <= d.Locs() && s.kids[k].Locs() <= s.Locs();
        DeepMerge(cells[dst][k].loc, sv.loc, d.kids[k], s.kids[k]);
        EntryDescended(d, s, todo, k, before, cells);
      } else {
        cells := cells[dst := cells[dst][k := sv]];
        EntryAssigned(d, s, todo, k, before, cells);
      }
    }
  }
}
