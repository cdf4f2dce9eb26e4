/** Sequences of items as ghost histories: subsequences and per-producer projections. */
module Logs {
  /** What flows through the ports and streams. */
  type Item(==, !new)

  function Init<T>(s: seq<T>): seq<T>
    requires s != []
  {
    s[..|s| - 1]
  }

  function Last<T>(s: seq<T>): T
    requires s != []
  {
    s[|s| - 1]
  }

  ghost predicate Distinct<T>(s: seq<T>) {
    forall i, j :: 0 <= i < j < |s| ==> s[i] != s[j]
  }

  /** a results from b by leaving items out. */
  predicate Subseq<T(==)>(a: seq<T>, b: seq<T>)
    decreases |b|
  {
    a == [] || (b != [] && ((Last(a) == Last(b) && Subseq(Init(a), Init(b))) || Subseq(a, Init(b))))
  }

  lemma {:induction false} SubseqRefl<T>(a: seq<T>)
    ensures Subseq(a, a)
    decreases |a|
  {
    if a == [] {
    } else {
      SubseqRefl(Init(a));
    }
  }

  lemma SubseqSnoc<T>(a: seq<T>, b: seq<T>, x: T)
    requires Subseq(a, b)
    ensures Subseq(a, b + [x]) && Subseq(a + [x], b + [x])
  {
    assert Init(b + [x]) == b && Init(a + [x]) == a;
  }

  lemma {:induction false} SubseqTrans<T>(a: seq<T>, b: seq<T>, c: seq<T>)
    requires Subseq(a, b) && Subseq(b, c)
    ensures Subseq(a, c)
    decreases |c|
  {
    if a == [] {
    } else {
      if Last(b) == Last(c) && Subseq(Init(b), Init(c)) {
        if Last(a) == Last(b) && Subseq(Init(a), Init(b)) {
          SubseqTrans(Init(a), Init(b), Init(c));
        } else {
          SubseqTrans(a, Init(b), Init(c));
        }
      } else {
        SubseqTrans(a, b, Init(c));
      }
    }
  }

  lemma {:induction false} SubseqPrefix<T>(a: seq<T>, b: seq<T>)
    ensures Subseq(a, a + b)
    decreases |b|
  {
    if b == [] {
      assert a + b == a;
      SubseqRefl(a);
    } else {
      SubseqPrefix(a, Init(b));
      SubseqSnoc(a, a + Init(b), Last(b));
      assert a + Init(b) + [Last(b)] == a + b;
    }
  }

  /** Leaving out a block in the middle. */
  lemma {:induction false} SubseqDrop<T>(a: seq<T>, b: seq<T>, c: seq<T>)
    ensures Subseq(a + c, a + b + c)
    decreases |c|
  {
    if c == [] {
      assert a + c == a && a + b + c == a + b;
      SubseqPrefix(a, b);
    } else {
      SubseqDrop(a, b, Init(c));
      SubseqSnoc(a + Init(c), a + b + Init(c), Last(c));
      assert a + Init(c) + [Last(c)] == a + c && a + b + Init(c) + [Last(c)] == a + b + c;
    }
  }

  lemma {:induction false} SubseqLength<T>(a: seq<T>, b: seq<T>)
    requires Subseq(a, b)
    ensures |a| <= |b|
    ensures |a| == |b| ==> a == b
    decreases |b|
  {
    if a == [] {
    } else {
      if Last(a) == Last(b) && Subseq(Init(a), Init(b)) {
        SubseqLength(Init(a), Init(b));
        assert a == Init(a) + [Last(a)] && b == Init(b) + [Last(b)];
      } else {
        SubseqLength(a, Init(b));
      }
    }
  }

  // ---- Tagged logs ----

  datatype Sent = Sent(from: int, v: Item)

  /** What producer p contributed to the log. */
  function By(log: seq<Sent>, p: int): seq<Item> {
    if log == [] then []
    else if Last(log).from == p then By(Init(log), p) + [Last(log).v]
    else By(Init(log), p)
  }

  function Items(log: seq<Sent>): seq<Item> {
    if log == [] then [] else Items(Init(log)) + [Last(log).v]
  }

  lemma LogSnoc(log: seq<Sent>, e: Sent)
    ensures forall p :: By(log + [e], p) == if e.from == p then By(log, p) + [e.v] else By(log, p)
    ensures Items(log + [e]) == Items(log) + [e.v]
  {
    assert Init(log + [e]) == log;
  }

  lemma {:induction false} ByCount(log: seq<Sent>, p: int, v: Item)
    ensures multiset(log)[Sent(p, v)] == multiset(By(log, p))[v]
    decreases |log|
  {
    if log == [] {
    } else {
      ByCount(Init(log), p, v);
      assert log == Init(log) + [Last(log)];
    }
  }

  /** Logs with equal contributions from every producer hold the same entries. */
  lemma SameContributions(a: seq<Sent>, b: seq<Sent>)
    requires forall p :: By(a, p) == By(b, p)
    ensures multiset(a) == multiset(b)
  {
    forall e: Sent ensures multiset(a)[e] == multiset(b)[e] {
      ByCount(a, e.from, e.v);
      ByCount(b, e.from, e.v);
      assert By(a, e.from) == By(b, e.from);
    }
  }

  lemma TakeEntry(log: seq<Sent>, e: Sent) returns (rest: seq<Sent>)
    requires e in multiset(log)
    ensures |rest| < |log| && multiset(log) == multiset(rest) + multiset{e}
    ensures multiset(Items(log)) == multiset(Items(rest)) + multiset{e.v}
  {
    var i :| 0 <= i < |log| && log[i] == e;
    rest := log[..i] + log[i + 1..];
    assert log == log[..i] + [e] + log[i + 1..];
    ItemsWithout(log[..i], e, log[i + 1..]);
  }

  lemma CancelOne<T>(a: multiset<T>, b: multiset<T>, e: T)
    requires a + multiset{e} == b + multiset{e}
    ensures a == b
  {
    forall x ensures a[x] == b[x] {
      assert (a + multiset{e})[x] == (b + multiset{e})[x];
    }
  }

  lemma {:induction false} SameItems(a: seq<Sent>, b: seq<Sent>)
    requires multiset(a) == multiset(b)
    ensures multiset(Items(a)) == multiset(Items(b))
    decreases |a|
  {
    if a == [] {
      assert |multiset(b)| == 0;
    } else {
      var e := Last(a);
      assert e in multiset(a) && e in multiset(b);
      var ra := TakeEntry(a, e);
      var rb := TakeEntry(b, e);
      CancelOne(multiset(ra), multiset(rb), e);
      SameItems(ra, rb);
    }
  }

  lemma {:induction false} ItemsWithout(pre: seq<Sent>, e: Sent, post: seq<Sent>)
    ensures multiset(Items(pre + [e] + post)) == multiset(Items(pre + post)) + multiset{e.v}
    decreases |post|
  {
    if post == [] {
      assert pre + [e] + post == pre + [e] && pre + post == pre;
      LogSnoc(pre, e);
    } else {
      ItemsWithout(pre, e, Init(post));
      LogSnoc(pre + [e] + Init(post), Last(post));
      LogSnoc(pre + Init(post), Last(post));
      assert pre + [e] + post == pre + [e] + Init(post) + [Last(post)];
      assert pre + post == pre + Init(post) + [Last(post)];
    }
  }
}
