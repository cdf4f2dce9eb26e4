/** forge: validated functions, their composition and their lifting to slices. */
module Forge {
  import opened Wire

  /** The typed errors of forge, codex's ElementError inside a slice, and any other error. */
  datatype Error =
    | InputError(fn: string, cause: Error)
    | RefinementError(fn: string, cause: Error)
    | ApplyError(fn: string, cause: Error)
    | OutputError(fn: string, cause: Error)
    | CollectionElementError(fn: string, index: int, cause: Error)
    | ElementError(index: int, cause: Error)
    | Other(code: int)

  type Result<+T> = Fallible<T, Error>

  /** A codec matters here only through Validate: nil or an error. */
  datatype Function<!In, !Out> = Function(
    name: string,
    validIn: In -> Option<Error>,
    refinement: Option<In -> Option<Error>>,
    compute: In -> Result<Out>,
    validOut: Out -> Option<Error>)

  /** errors.As over the chain of causes: is one of the four typed errors in it? */
  predicate HasTyped(e: Error) {
    match e
    case InputError(_, _) => true
    case RefinementError(_, _) => true
    case ApplyError(_, _) => true
    case OutputError(_, _) => true
    case CollectionElementError(_, _, cause) => HasTyped(cause)
    case ElementError(_, cause) => HasTyped(cause)
    case Other(_) => false
  }

  function PassOrWrapApply(name: string, e: Error): (r: Error)
    ensures HasTyped(r) && (r == e <==> HasTyped(e)) && (r != e ==> r == ApplyError(name, e))
  {
    if HasTyped(e) then e else ApplyError(name, e)
  }

  /** ApplyContext: validate in, refine, compute, validate out. */
  function Apply<In, Out>(f: Function<In, Out>, x: In): Result<Out> {
    match f.validIn(x)
    case Some(e) => Err(InputError(f.name, e))
    case None =>
      var refined := if f.refinement.Some? then f.refinement.value(x) else None;
      match refined
      case Some(e) => Err(RefinementError(f.name, e))
      case None =>
        match f.compute(x)
        case Err(e) => Err(PassOrWrapApply(f.name, e))
        case Ok(y) =>
          match f.validOut(y)
          case Some(e) => Err(OutputError(f.name, e))
          case None => Ok(y)
  }

  /** A result comes out exactly when the input and the result are valid, the refinement, if there is one,
      holds, and it is what is computed; otherwise the first of these checks that fails, in the order
      input, refinement, computation, output, is named. */
  lemma ApplyGivesIff<In, Out>(f: Function<In, Out>, x: In, y: Out)
    ensures Apply(f, x) == Ok(y) <==>
              && f.validIn(x).None? && (f.refinement.Some? ==> f.refinement.value(x).None?)
              && f.compute(x) == Ok(y) && f.validOut(y).None?
    ensures f.validIn(x).Some? ==> Apply(f, x) == Err(InputError(f.name, f.validIn(x).value))
    ensures f.validIn(x).None? && f.refinement.Some? && f.refinement.value(x).Some? ==>
              Apply(f, x) == Err(RefinementError(f.name, f.refinement.value(x).value))
    ensures f.validIn(x).None? && (f.refinement.Some? ==> f.refinement.value(x).None?) ==>
              && (f.compute(x).Err? && HasTyped(f.compute(x).error) ==> Apply(f, x) == Err(f.compute(x).error))
              && (f.compute(x).Err? && !HasTyped(f.compute(x).error) ==>
                    Apply(f, x) == Err(ApplyError(f.name, f.compute(x).error)))
              && (f.compute(x) == Ok(y) && f.validOut(y).Some? ==>
                    Apply(f, x) == Err(OutputError(f.name, f.validOut(y).value)))
  {}

  /** Every error Apply returns carries a typed forge error. */
  lemma ApplyErrorsAreTyped<In, Out>(f: Function<In, Out>, x: In)
    ensures Apply(f, x).Err? ==> HasTyped(Apply(f, x).error)
  {
  }

  // ---- Compose ----

  function Compose<A, B, C>(name: string, f: Function<A, B>, g: Function<B, C>, refinement: Option<A -> Option<Error>>)
    : Function<A, C>
  {
    Function(name, f.validIn, refinement,
             (a: A) => match Apply(f, a) case Err(e) => Err(e) case Ok(b) => Apply(g, b),
             g.validOut)
  }

  /** Running f and feeding its result to g. */
  function Chain<A, B, C>(f: Function<A, B>, g: Function<B, C>, a: A): Result<C> {
    match Apply(f, a) case Err(e) => Err(e) case Ok(b) => Apply(g, b)
  }

  /** Composition adds nothing to the chain but its name: despite validating the input and the output
      a second time it succeeds on the same inputs with the same values, passes the errors of the
      parts through unwrapped, and only a rejected input is reported under its own name. */
  lemma ComposeIsChain<A, B, C>(name: string, f: Function<A, B>, g: Function<B, C>, a: A)
    ensures Apply(Compose(name, f, g, None), a) ==
              match f.validIn(a) case Some(e) => Err(InputError(name, e)) case None => Chain(f, g, a)
    ensures Apply(Compose(name, f, g, None), a).Ok? <==> Chain(f, g, a).Ok?
    ensures Chain(f, g, a).Ok? ==> Apply(Compose(name, f, g, None), a) == Chain(f, g, a)
  {
    ApplyErrorsAreTyped(f, a);
    if Apply(f, a).Ok? { ApplyErrorsAreTyped(g, Apply(f, a).value); }
  }

  /** A refinement on the composition restricts its inputs and runs before f. */
  lemma RefinedComposition<A, B, C>(name: string, f: Function<A, B>, g: Function<B, C>, check: A -> Option<Error>, a: A)
    ensures var refined := Apply(Compose(name, f, g, Some(check)), a);
            && (f.validIn(a).None? && check(a).Some? ==> refined == Err(RefinementError(name, check(a).value)))
            && (f.validIn(a).Some? || check(a).None? ==> refined == Apply(Compose(name, f, g, None), a))
  {
  }

  /** How composition groups does not matter to what comes out. */
  lemma ComposeAssociative<A, B, C, D>(n1: string, n2: string, m1: string, m2: string,
                                       f: Function<A, B>, g: Function<B, C>, h: Function<C, D>, a: A, d: D)
    ensures Apply(Compose(n1, Compose(n2, f, g, None), h, None), a) == Ok(d) <==>
              Apply(Compose(m1, f, Compose(m2, g, h, None), None), a) == Ok(d)
  {
    var fg, gh := Compose(n2, f, g, None), Compose(m2, g, h, None);
    ComposeIsChain(n1, fg, h, a);
    ComposeIsChain(n2, f, g, a);
    ComposeIsChain(m1, f, gh, a);
    if Apply(f, a).Ok? { ComposeIsChain(m2, g, h, Apply(f, a).value); }
  }

  // ---- Map ----

  /** The elements' results, or the first failure with its index. */
  function MapItems<In, Out>(name: string, f: Function<In, Out>, items: seq<In>): (r: Result<seq<Out>>)
    ensures r.Ok? ==> |r.value| == |items|
  {
    if items == [] then Ok([])
    else
      var n := |items| - 1;
      match MapItems(name, f, items[..n])
      case Err(e) => Err(e)
      case Ok(out) =>
        match Apply(f, items[n]) case Err(e) => Err(CollectionElementError(name, n, e)) case Ok(y) => Ok(out + [y])
  }

  /** The loop inside Map's function. */
  method MapLoop<In, Out>(name: string, f: Function<In, Out>, items: seq<In>) returns (r: Result<seq<Out>>)
    ensures r == MapItems(name, f, items)
  {
    var result: seq<Out> := [];
    for i := 0 to |items|
      invariant MapItems(name, f, items[..i]) == Ok(result)
    {
      assert items[..i + 1][..i] == items[..i];
      match Apply(f, items[i]) {
        case Err(e) =>
          StopsAtFailure(name, f, items, i + 1);
          return Err(CollectionElementError(name, i, e));
        case Ok(y) => result := result + [y];
      }
    }
    assert items[..|items|] == items;
    return Ok(result);
  }

  lemma {:induction false} StopsAtFailure<In, Out>(name: string, f: Function<In, Out>, items: seq<In>, i: nat)
    requires i <= |items| && MapItems(name, f, items[..i]).Err?
    ensures MapItems(name, f, items) == MapItems(name, f, items[..i])
    decreases |items|
  {
    if i < |items| {
      var n := |items| - 1;
      assert items[..n][..i] == items[..i];
      StopsAtFailure(name, f, items[..n], i);
    } else {
      assert items[..i] == items;
    }
  }

  ghost predicate FirstFailure<In, Out>(f: Function<In, Out>, items: seq<In>, i: int) {
    0 <= i < |items| && Apply(f, items[i]).Err? && forall k :: 0 <= k < i ==> Apply(f, items[k]).Ok?
  }

  ghost predicate NamesFirstFailure<In, Out>(name: string, f: Function<In, Out>, items: seq<In>, e: Error) {
    && e.CollectionElementError? && e.fn == name
    && FirstFailure(f, items, e.index) && Apply(f, items[e.index]) == Err(e.cause)
  }

  /** Map works element by element and names the first element that fails. */
  lemma {:induction false} MapItemsAre<In, Out>(name: string, f: Function<In, Out>, items: seq<In>)
    ensures var r := MapItems(name, f, items);
            && (r.Ok? <==> forall i :: 0 <= i < |items| ==> Apply(f, items[i]).Ok?)
            && (r.Ok? ==> forall i :: 0 <= i < |items| ==> Apply(f, items[i]) == Ok(r.value[i]))
            && (r.Err? ==> NamesFirstFailure(name, f, items, r.error))
  {
    if items == [] {
    } else {
      var n := |items| - 1;
      MapItemsAre(name, f, items[..n]);
      assert forall i :: 0 <= i < n ==> items[..n][i] == items[i];
      if MapItems(name, f, items[..n]).Err? {
        var i := MapItems(name, f, items[..n]).error.index;
        assert Apply(f, items[i]).Err?;
      }
    }
  }

  /** SliceOf's Validate: the first element its codec rejects. */
  function ValidSlice<T>(valid: T -> Option<Error>, s: seq<T>): Option<Error> {
    if s == [] then None
    else
      var n := |s| - 1;
      match ValidSlice(valid, s[..n])
      case Some(e) => Some(e)
      case None => match valid(s[n]) case Some(e) => Some(ElementError(n, e)) case None => None
  }

  lemma {:induction false} ValidSliceIff<T>(valid: T -> Option<Error>, s: seq<T>)
    ensures ValidSlice(valid, s).None? <==> forall i :: 0 <= i < |s| ==> valid(s[i]).None?
  {
    if s == [] {
    } else {
      var n := |s| - 1;
      ValidSliceIff(valid, s[..n]);
      assert forall i :: 0 <= i < n ==> s[..n][i] == s[i];
    }
  }

  /** containerSlice checks only the container, so its Validate accepts every slice. */
  function Map<In, Out>(name: string, f: Function<In, Out>, refinement: Option<seq<In> -> Option<Error>>)
    : Function<seq<In>, seq<Out>>
  {
    Function(name, (_: seq<In>) => None, refinement,
             (items: seq<In>) => MapItems(name, f, items),
             (out: seq<Out>) => ValidSlice(f.validOut, out))
  }

  /** Validating the whole output again never fails, and the error of a failing element comes out as
      it is: the lifted function is the element loop. */
  lemma MapIsLoop<In, Out>(name: string, f: Function<In, Out>, items: seq<In>)
    ensures Apply(Map(name, f, None), items) == MapItems(name, f, items)
  {
    MapItemsAre(name, f, items);
    var r := MapItems(name, f, items);
    if r.Ok? {
      forall i | 0 <= i < |r.value| ensures f.validOut(r.value[i]).None? { assert Apply(f, items[i]) == Ok(r.value[i]); }
      ValidSliceIff(f.validOut, r.value);
    } else {
      ApplyErrorsAreTyped(f, items[r.error.index]);
    }
  }

  /** Fusion: mapping a composition and composing two maps succeed on the same slices with the same
      output. */
  lemma MapFusion<A, B, C>(n1: string, n2: string, m1: string, m2: string, m3: string,
                           f: Function<A, B>, g: Function<B, C>, items: seq<A>, out: seq<C>)
    ensures Apply(Map(n1, Compose(n2, f, g, None), None), items) == Ok(out) <==>
              Apply(Compose(m1, Map(m2, f, None), Map(m3, g, None), None), items) == Ok(out)
  {
    var fg := Compose(n2, f, g, None);
    MapIsLoop(n1, fg, items);
    MapItemsAre(n1, fg, items);
    ComposeIsChain(m1, Map(m2, f, None), Map(m3, g, None), items);
    MapIsLoop(m2, f, items);
    MapItemsAre(m2, f, items);
    forall i | 0 <= i < |items| ensures Apply(fg, items[i]).Ok? <==> Chain(f, g, items[i]).Ok? {
      ComposeIsChain(n2, f, g, items[i]);
    }
    if MapItems(m2, f, items).Ok? {
      var mid := MapItems(m2, f, items).value;
      MapIsLoop(m3, g, mid);
      MapItemsAre(m3, g, mid);
      forall i | 0 <= i < |items| ensures Apply(fg, items[i]).Ok? <==> Apply(g, mid[i]).Ok? {
        ComposeIsChain(n2, f, g, items[i]);
      }
      if MapItems(n1, fg, items).Ok? && MapItems(m3, g, mid).Ok? {
        SameOutput(n1, m3, fg, g, items, mid, n2, f);
      }
    }
  }

  lemma SameOutput<A, B, C>(n1: string, m3: string, fg: Function<A, C>, g: Function<B, C>, items: seq<A>, mid: seq<B>,
                            n2: string, f: Function<A, B>)
    requires fg == Compose(n2, f, g, None) && |mid| == |items|
    requires forall i :: 0 <= i < |items| ==> Apply(f, items[i]) == Ok(mid[i])
    requires MapItems(n1, fg, items).Ok? && MapItems(m3, g, mid).Ok?
    ensures MapItems(n1, fg, items).value == MapItems(m3, g, mid).value
  {
    MapItemsAre(n1, fg, items);
    MapItemsAre(m3, g, mid);
    forall i | 0 <= i < |items| ensures MapItems(n1, fg, items).value[i] == MapItems(m3, g, mid).value[i] {
      ComposeIsChain(n2, f, g, items[i]);
    }
  }

  /** They can differ in the element they blame: composing first stops at the first element that fails
      either part, mapping first tries f on every element before g on any. */
  lemma FusionFailsNoLater<A, B, C>(n1: string, n2: string, m1: string, m2: string, m3: string,
                                    f: Function<A, B>, g: Function<B, C>, items: seq<A>)
    ensures var fused := Apply(Map(n1, Compose(n2, f, g, None), None), items);
            var staged := Apply(Compose(m1, Map(m2, f, None), Map(m3, g, None), None), items);
            && (fused.Err? <==> staged.Err?)
            && (fused.Err? ==> fused.error.CollectionElementError? && staged.error.CollectionElementError? &&
                               fused.error.index <= staged.error.index)
  {
    var fg := Compose(n2, f, g, None);
    MapIsLoop(n1, fg, items);
    MapItemsAre(n1, fg, items);
    ComposeIsChain(m1, Map(m2, f, None), Map(m3, g, None), items);
    MapIsLoop(m2, f, items);
    MapItemsAre(m2, f, items);
    forall i | 0 <= i < |items| ensures Apply(fg, items[i]).Ok? <==> Chain(f, g, items[i]).Ok? {
      ComposeIsChain(n2, f, g, items[i]);
    }
    if MapItems(m2, f, items).Ok? {
      var mid := MapItems(m2, f, items).value;
      MapIsLoop(m3, g, mid);
      MapItemsAre(m3, g, mid);
      forall i | 0 <= i < |items| ensures Apply(fg, items[i]).Ok? <==> Apply(g, mid[i]).Ok? {
        ComposeIsChain(n2, f, g, items[i]);
      }
    }
  }

  // ---- Filter and Reduce ----

  /** What Filter and Reduce do per element before using it. */
  ghost predicate FirstInvalid<T>(valid: T -> Option<Error>, items: seq<T>, i: int) {
    0 <= i < |items| && valid(items[i]).Some? && forall k :: 0 <= k < i ==> valid(items[k]).None?
  }

  /** e is inner, inside an ApplyError unless inner carries a typed forge error already. */
  ghost predicate IsWrapped(e: Error, name: string, inner: Error) {
    if HasTyped(inner) then e == inner else e == ApplyError(name, inner)
  }

  ghost predicate WrapsFirstInvalid<T>(name: string, valid: T -> Option<Error>, items: seq<T>, e: Error) {
    exists i :: FirstInvalid(valid, items, i) && IsWrapped(e, name, CollectionElementError(name, i, valid(items[i]).value))
  }

  ghost predicate AllValid<T>(valid: T -> Option<Error>, items: seq<T>) {
    forall i :: 0 <= i < |items| ==> valid(items[i]).None?
  }

  /** What a loop over the elements returns for items that are not all valid. */
  ghost predicate NamesFirstInvalid<T>(name: string, valid: T -> Option<Error>, items: seq<T>, e: Error) {
    && e.CollectionElementError? && e.fn == name
    && FirstInvalid(valid, items, e.index) && valid(items[e.index]) == Some(e.cause)
  }

  function Kept<T>(pred: T -> bool, items: seq<T>): seq<T> {
    if items == [] then []
    else Kept(pred, items[..|items| - 1]) + if pred(items[|items| - 1]) then [items[|items| - 1]] else []
  }

  function Folded<T, Acc>(step: (Acc, T) -> Acc, init: Acc, items: seq<T>): Acc {
    if items == [] then init else step(Folded(step, init, items[..|items| - 1]), items[|items| - 1])
  }

  /** kept is what stands at the places at, and these are, in order, the places of exactly the
      items that satisfy pred. */
  ghost predicate Selects<T>(at: seq<int>, pred: T -> bool, items: seq<T>, kept: seq<T>) {
    && |at| == |kept|
    && (forall j, k :: 0 <= j < k < |at| ==> at[j] < at[k])
    && (forall k :: 0 <= k < |at| ==> 0 <= at[k] < |items| && pred(items[at[k]]) && kept[k] == items[at[k]])
    && (forall i :: 0 <= i < |items| && pred(items[i]) ==> i in at)
  }

  lemma SelectsSkip<T>(at: seq<int>, pred: T -> bool, items: seq<T>, kept: seq<T>, x: T)
    requires Selects(at, pred, items, kept) && !pred(x)
    ensures Selects(at, pred, items + [x], kept)
  {
    forall i | 0 <= i < |items + [x]| && pred((items + [x])[i]) ensures i in at {
      assert i < |items| && pred(items[i]);
    }
  }

  lemma SelectsTake<T>(at: seq<int>, pred: T -> bool, items: seq<T>, kept: seq<T>, x: T)
    requires Selects(at, pred, items, kept) && pred(x)
    ensures Selects(at + [|items|], pred, items + [x], kept + [x])
  {
    var longer := at + [|items|];
    forall i | 0 <= i < |items + [x]| && pred((items + [x])[i]) ensures i in longer {
      if i == |items| {
        assert longer[|at|] == i;
      } else {
        assert pred(items[i]) && i in at;
      }
    }
    forall j, k | 0 <= j < k < |longer| ensures longer[j] < longer[k] {
      assert longer[j] == at[j] && 0 <= at[j] < |items|;
    }
  }

  /** The places of the kept items. */
  ghost function KeptAt<T>(pred: T -> bool, items: seq<T>): seq<int> {
    if items == [] then []
    else KeptAt(pred, items[..|items| - 1]) + if pred(items[|items| - 1]) then [|items| - 1] else []
  }

  /** The kept items are exactly those that satisfy pred, each as often as it occurs, in order. */
  lemma {:induction false} KeptAreItems<T>(pred: T -> bool, items: seq<T>)
    ensures Selects(KeptAt(pred, items), pred, items, Kept(pred, items))
  {
    if items == [] {
    } else {
      var before, x := items[..|items| - 1], items[|items| - 1];
      KeptAreItems(pred, before);
      assert items == before + [x];
      if pred(x) {
        SelectsTake(KeptAt(pred, before), pred, before, Kept(pred, before), x);
      } else {
        SelectsSkip(KeptAt(pred, before), pred, before, Kept(pred, before), x);
        assert KeptAt(pred, items) == KeptAt(pred, before) && Kept(pred, items) == Kept(pred, before);
      }
    }
  }

  /** The loop inside Filter's function. */
  function FilterItems<T>(name: string, valid: T -> Option<Error>, pred: T -> bool, items: seq<T>): Result<seq<T>> {
    if items == [] then Ok([])
    else
      var n := |items| - 1;
      match FilterItems(name, valid, pred, items[..n])
      case Err(e) => Err(e)
      case Ok(out) =>
        match valid(items[n])
        case Some(e) => Err(CollectionElementError(name, n, e))
        case None => Ok(if pred(items[n]) then out + [items[n]] else out)
  }

  lemma {:induction false} FilterItemsAre<T>(name: string, valid: T -> Option<Error>, pred: T -> bool, items: seq<T>)
    ensures var r := FilterItems(name, valid, pred, items);
            if AllValid(valid, items) then r == Ok(Kept(pred, items))
            else r.Err? && NamesFirstInvalid(name, valid, items, r.error)
  {
    if items == [] {
    } else {
      FilterItemsAre(name, valid, pred, items[..|items| - 1]);
      ValidityNext(name, valid, items);
      assert Kept(pred, items[..|items| - 1]) + [] == Kept(pred, items[..|items| - 1]);
    }
  }

  /** Looking at one more item. */
  lemma ValidityNext<T>(name: string, valid: T -> Option<Error>, items: seq<T>)
    requires items != []
    ensures var n := |items| - 1;
            && (AllValid(valid, items) <==> AllValid(valid, items[..n]) && valid(items[n]).None?)
            && (forall e :: NamesFirstInvalid(name, valid, items[..n], e) ==> NamesFirstInvalid(name, valid, items, e))
            && (AllValid(valid, items[..n]) && valid(items[n]).Some? ==>
                  NamesFirstInvalid(name, valid, items, CollectionElementError(name, n, valid(items[n]).value)))
  {
    var n := |items| - 1;
    assert forall i :: 0 <= i < n ==> items[..n][i] == items[i];
  }

  method FilterLoop<T>(name: string, valid: T -> Option<Error>, pred: T -> bool, items: seq<T>) returns (r: Result<seq<T>>)
    ensures r == FilterItems(name, valid, pred, items)
    ensures AllValid(valid, items) ==> r == Ok(Kept(pred, items))
    ensures !AllValid(valid, items) ==> r.Err? && NamesFirstInvalid(name, valid, items, r.error)
  {
    FilterItemsAre(name, valid, pred, items);
    var result: seq<T> := [];
    for i := 0 to |items|
      invariant result == Kept(pred, items[..i])
      invariant AllValid(valid, items[..i])
    {
      assert items[..i + 1][..i] == items[..i];
      match valid(items[i]) {
        case Some(e) =>
          var error := CollectionElementError(name, i, e);
          assert NamesFirstInvalid(name, valid, items, error) by {
            assert forall k :: 0 <= k < i ==> items[..i][k] == items[k];
          }
          return Err(error);
        case None =>
          ValidityNext(name, valid, items[..i + 1]);
          if pred(items[i]) { result := result + [items[i]]; }
      }
    }
    assert items[..|items|] == items;
    return Ok(result);
  }

  function Filter<T>(name: string, valid: T -> Option<Error>, pred: T -> bool, refinement: Option<seq<T> -> Option<Error>>)
    : Function<seq<T>, seq<T>>
  {
    Function(name, (_: seq<T>) => None, refinement,
             (items: seq<T>) => FilterItems(name, valid, pred, items),
             (out: seq<T>) => ValidSlice(valid, out))
  }

  /** The refinement of a lifted function sees the whole slice before any element is looked at. */
  ghost predicate Refuses<T>(refinement: Option<seq<T> -> Option<Error>>, items: seq<T>) {
    refinement.Some? && refinement.value(items).Some?
  }

  /** Filter's Apply: the refinement comes first; then the items that satisfy pred, if all items are
      valid (validating them again as the output never fails); else the first invalid one's error.
      That is a CollectionElementError around a codec error; no typed forge error is found in a
      plain one, so unlike Map's it comes out inside an ApplyError. */
  lemma FilterApplied<T>(name: string, valid: T -> Option<Error>, pred: T -> bool,
                         refinement: Option<seq<T> -> Option<Error>>, items: seq<T>)
    ensures var r := Apply(Filter(name, valid, pred, refinement), items);
            if Refuses(refinement, items) then r == Err(RefinementError(name, refinement.value(items).value))
            else if AllValid(valid, items) then r == Ok(Kept(pred, items))
            else r.Err? && WrapsFirstInvalid(name, valid, items, r.error)
  {
    FilterItemsAre(name, valid, pred, items);
    if AllValid(valid, items) {
      var kept := Kept(pred, items);
      KeptAreItems(pred, items);
      forall k | 0 <= k < |kept| ensures valid(kept[k]).None? {
        assert kept[k] == items[KeptAt(pred, items)[k]];
      }
      ValidSliceIff(valid, kept);
    } else {
      var e := FilterItems(name, valid, pred, items).error;
      assert FirstInvalid(valid, items, e.index) && IsWrapped(PassOrWrapApply(name, e), name, e);
    }
  }

  /** The loop inside Reduce's function. */
  function ReduceItems<T, Acc>(name: string, valid: T -> Option<Error>, init: Acc, step: (Acc, T) -> Acc, items: seq<T>)
    : Result<Acc>
  {
    if items == [] then Ok(init)
    else
      var n := |items| - 1;
      match ReduceItems(name, valid, init, step, items[..n])
      case Err(e) => Err(e)
      case Ok(acc) =>
        match valid(items[n]) case Some(e) => Err(CollectionElementError(name, n, e)) case None => Ok(step(acc, items[n]))
  }

  lemma {:induction false} ReduceItemsAre<T, Acc>(name: string, valid: T -> Option<Error>, init: Acc,
                                                  step: (Acc, T) -> Acc, items: seq<T>)
    ensures var r := ReduceItems(name, valid, init, step, items);
            if AllValid(valid, items) then r == Ok(Folded(step, init, items))
            else r.Err? && NamesFirstInvalid(name, valid, items, r.error)
  {
    if items == [] {
    } else {
      ReduceItemsAre(name, valid, init, step, items[..|items| - 1]);
      ValidityNext(name, valid, items);
    }
  }

  method ReduceLoop<T, Acc>(name: string, valid: T -> Option<Error>, init: Acc, step: (Acc, T) -> Acc, items: seq<T>)
    returns (r: Result<Acc>)
    ensures r == ReduceItems(name, valid, init, step, items)
    ensures AllValid(valid, items) ==> r == Ok(Folded(step, init, items))
    ensures !AllValid(valid, items) ==> r.Err? && NamesFirstInvalid(name, valid, items, r.error)
  {
    ReduceItemsAre(name, valid, init, step, items);
    var acc := init;
    for i := 0 to |items|
      invariant acc == Folded(step, init, items[..i])
      invariant AllValid(valid, items[..i])
    {
      assert items[..i + 1][..i] == items[..i];
      match valid(items[i]) {
        case Some(e) =>
          var error := CollectionElementError(name, i, e);
          assert NamesFirstInvalid(name, valid, items, error) by {
            assert forall k :: 0 <= k < i ==> items[..i][k] == items[k];
          }
          return Err(error);
        case None =>
          ValidityNext(name, valid, items[..i + 1]);
          acc := step(acc, items[i]);
      }
    }
    assert items[..|items|] == items;
    return Ok(acc);
  }

  function Reduce<T, Acc>(name: string, valid: T -> Option<Error>, validAcc: Acc -> Option<Error>, init: Acc,
                          step: (Acc, T) -> Acc, refinement: Option<seq<T> -> Option<Error>>): Function<seq<T>, Acc>
  {
    Function(name, (_: seq<T>) => None, refinement,
             (items: seq<T>) => ReduceItems(name, valid, init, step, items), validAcc)
  }

  /** Reduce's Apply: the refinement, then a left fold over the elements as long as they are valid,
      and only for the result of a whole fold the accumulator's own validation. */
  lemma ReduceApplied<T, Acc>(name: string, valid: T -> Option<Error>, validAcc: Acc -> Option<Error>, init: Acc,
                              step: (Acc, T) -> Acc, refinement: Option<seq<T> -> Option<Error>>, items: seq<T>)
    ensures var r, folded := Apply(Reduce(name, valid, validAcc, init, step, refinement), items), Folded(step, init, items);
            if Refuses(refinement, items) then r == Err(RefinementError(name, refinement.value(items).value))
            else if !AllValid(valid, items) then r.Err? && WrapsFirstInvalid(name, valid, items, r.error)
            else if validAcc(folded).Some? then r == Err(OutputError(name, validAcc(folded).value))
            else r == Ok(folded)
  {
    ReduceItemsAre(name, valid, init, step, items);
    if !AllValid(valid, items) {
      var e := ReduceItems(name, valid, init, step, items).error;
      assert FirstInvalid(valid, items, e.index) && IsWrapped(PassOrWrapApply(name, e), name, e);
    }
  }
}
