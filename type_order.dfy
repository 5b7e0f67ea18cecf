/**
 * The order in which the types generator declares the structs of a model:
 * sorted by name, then reordered by a queue so that every struct comes after
 * its base. A struct is taken from the front of the queue; it is accepted
 * when it has no base or its base was accepted already, and otherwise goes
 * back to the end of the queue.
 */
module TypeOrder {
  import opened Text
  import opened Metamodel

  /** Some struct in `accepted` carries the name `name` (Deque.contains on the base). */
  predicate HasName(accepted: seq<StructDecl>, name: Name) {
    exists j :: 0 <= j < |accepted| && accepted[j].name == name
  }

  /** The struct can be accepted now: it has no base, or its base was accepted already. */
  predicate Ready(s: StructDecl, accepted: seq<StructDecl>) {
    s.base.None? || HasName(accepted, s.base.value)
  }

  /**
   * Following base links from `s` through the structs of `pool` reaches a
   * struct without a base in at most `k` steps.
   */
  ghost predicate ReachesRoot(pool: multiset<StructDecl>, s: StructDecl, k: nat)
    decreases k
  {
    s.base.None? ||
    (k > 0 && exists b :: b in pool && b.name == s.base.value && ReachesRoot(pool, b, k - 1))
  }

  /**
   * Every base is a struct of the pool and no chain of bases is circular: the
   * condition under which the ordering queue empties.
   */
  ghost predicate Acyclic(pool: multiset<StructDecl>) {
    forall s :: s in pool ==> exists k: nat :: ReachesRoot(pool, s, k)
  }

  /** Every struct still pending reaches a root through the accepted and pending structs. */
  ghost predicate Drains(pending: seq<StructDecl>, accepted: seq<StructDecl>) {
    forall s :: s in pending ==> exists k: nat :: ReachesRoot(multiset(accepted + pending), s, k)
  }

  /** Where the first struct that can be accepted sits in the queue (|pending| when none can). */
  function FirstReady(pending: seq<StructDecl>, accepted: seq<StructDecl>): (r: nat)
    ensures r <= |pending|
    decreases |pending|
  {
    if pending == [] then 0
    else if Ready(pending[0], accepted) then 0
    else 1 + FirstReady(pending[1..], accepted)
  }

  /** No struct before the first ready one is ready. */
  lemma {:induction false} FirstReadyBound(pending: seq<StructDecl>, accepted: seq<StructDecl>, i: nat)
    requires i < |pending| && Ready(pending[i], accepted)
    ensures FirstReady(pending, accepted) <= i
    decreases i
  {
    if i > 0 && !Ready(pending[0], accepted) {
      FirstReadyBound(pending[1..], accepted, i - 1);
    }
  }

  /** A struct that reaches a root has itself or some ancestor ready in the queue. */
  lemma {:induction false} SomeReady(pending: seq<StructDecl>, accepted: seq<StructDecl>, s: StructDecl, k: nat)
    requires s in pending && ReachesRoot(multiset(accepted + pending), s, k)
    ensures FirstReady(pending, accepted) < |pending|
    decreases k
  {
    if !Ready(s, accepted) {
      var b :| b in multiset(accepted + pending) && b.name == s.base.value
        && ReachesRoot(multiset(accepted + pending), b, k - 1);
      assert b in pending;
      SomeReady(pending, accepted, b, k - 1);
    } else {
      var i :| 0 <= i < |pending| && pending[i] == s;
      FirstReadyBound(pending, accepted, i);
    }
  }

  /** Appending to the back does not move the first ready struct. */
  lemma {:induction false} FirstReadyAppend(pending: seq<StructDecl>, more: seq<StructDecl>, accepted: seq<StructDecl>)
    requires FirstReady(pending, accepted) < |pending|
    ensures FirstReady(pending + more, accepted) == FirstReady(pending, accepted)
    decreases |pending|
  {
    assert (pending + more)[0] == pending[0];
    if !Ready(pending[0], accepted) {
      assert (pending + more)[1..] == pending[1..] + more;
      FirstReadyAppend(pending[1..], more, accepted);
    }
  }

  /** Re-queueing a struct that is not ready brings the first ready struct one place closer. */
  lemma RequeueProgress(pending: seq<StructDecl>, accepted: seq<StructDecl>)
    requires pending != [] && !Ready(pending[0], accepted) && Drains(pending, accepted)
    ensures FirstReady(pending[1..] + [pending[0]], accepted) < FirstReady(pending, accepted)
  {
    assert pending[0] in pending;
    var k :| ReachesRoot(multiset(accepted + pending), pending[0], k);
    SomeReady(pending, accepted, pending[0], k);
    FirstReadyAppend(pending[1..], [pending[0]], accepted);
  }

  lemma DrainsAccept(pending: seq<StructDecl>, accepted: seq<StructDecl>)
    requires pending != [] && Drains(pending, accepted)
    ensures Drains(pending[1..], accepted + [pending[0]])
  {
    var pool := multiset(accepted + pending);
    assert accepted + pending == (accepted + [pending[0]]) + pending[1..];
    forall s | s in pending[1..] ensures exists k: nat :: ReachesRoot(pool, s, k) {
      assert s in pending;
    }
  }

  lemma DrainsRequeue(pending: seq<StructDecl>, accepted: seq<StructDecl>)
    requires pending != [] && Drains(pending, accepted)
    ensures Drains(pending[1..] + [pending[0]], accepted)
  {
    var pool := multiset(accepted + pending);
    assert pending == [pending[0]] + pending[1..];
    assert multiset(accepted + (pending[1..] + [pending[0]])) == pool;
    forall s | s in pending[1..] + [pending[0]] ensures exists k: nat :: ReachesRoot(pool, s, k) {
      assert s in pending;
    }
  }

  /** A queue holding exactly an acyclic pool can be drained. */
  lemma StartDrains(pending: seq<StructDecl>, structs: seq<StructDecl>)
    requires multiset(pending) == multiset(structs) && Acyclic(multiset(structs))
    ensures Drains(pending, [])
  {
    assert [] + pending == pending;
    forall s | s in pending ensures exists k: nat :: ReachesRoot(multiset(pending), s, k) {
      assert s in multiset(structs);
    }
  }

  /** The ordering loop run to the end: the sequence of accepted structs once the queue is empty. */
  function Drain(pending: seq<StructDecl>, accepted: seq<StructDecl>): seq<StructDecl>
    requires Drains(pending, accepted)
    decreases |pending|, FirstReady(pending, accepted)
  {
    if pending == [] then accepted
    else
      var current := pending[0];
      if Ready(current, accepted) then
        DrainsAccept(pending, accepted);
        Drain(pending[1..], accepted + [current])
      else
        DrainsRequeue(pending, accepted);
        RequeueProgress(pending, accepted);
        Drain(pending[1..] + [current], accepted)
  }

  /** The generator's declaration order for a list of structs. */
  function Order(structs: seq<StructDecl>): seq<StructDecl>
    requires Acyclic(multiset(structs))
  {
    var pending := SortBy(structs, StructName);
    StartDrains(pending, structs);
    Drain(pending, [])
  }

  // ---------------------------------------------------------------------
  // What the order guarantees
  // ---------------------------------------------------------------------

  /** Each struct is accepted exactly once and none is lost. */
  lemma {:induction false} DrainPermutation(pending: seq<StructDecl>, accepted: seq<StructDecl>)
    requires Drains(pending, accepted)
    ensures multiset(Drain(pending, accepted)) == multiset(accepted) + multiset(pending)
    decreases |pending|, FirstReady(pending, accepted)
  {
    if pending != [] {
      var current := pending[0];
      assert pending == [current] + pending[1..];
      if Ready(current, accepted) {
        DrainsAccept(pending, accepted);
        DrainPermutation(pending[1..], accepted + [current]);
      } else {
        DrainsRequeue(pending, accepted);
        RequeueProgress(pending, accepted);
        DrainPermutation(pending[1..] + [current], accepted);
      }
    }
  }

  /** Every struct with a base comes strictly after a struct of that name. */
  ghost predicate BasesBefore(r: seq<StructDecl>) {
    forall i :: 0 <= i < |r| && r[i].base.Some? ==>
      exists j :: 0 <= j < i && r[j].name == r[i].base.value
  }

  lemma {:induction false} DrainBasesBefore(pending: seq<StructDecl>, accepted: seq<StructDecl>)
    requires Drains(pending, accepted) && BasesBefore(accepted)
    ensures BasesBefore(Drain(pending, accepted))
    decreases |pending|, FirstReady(pending, accepted)
  {
    if pending != [] {
      var current := pending[0];
      if Ready(current, accepted) {
        DrainsAccept(pending, accepted);
        var next := accepted + [current];
        forall i | 0 <= i < |next| && next[i].base.Some?
          ensures exists j :: 0 <= j < i && next[j].name == next[i].base.value
        {
          if i == |accepted| {
            var j :| 0 <= j < |accepted| && accepted[j].name == current.base.value;
            assert next[j] == accepted[j];
          } else {
            var j :| 0 <= j < i && accepted[j].name == accepted[i].base.value;
            assert next[j] == accepted[j];
          }
        }
        DrainBasesBefore(pending[1..], next);
      } else {
        DrainsRequeue(pending, accepted);
        RequeueProgress(pending, accepted);
        DrainBasesBefore(pending[1..] + [current], accepted);
      }
    }
  }

  /** The structs without a base, in their order. */
  function Roots(s: seq<StructDecl>): seq<StructDecl>
    decreases |s|
  {
    if s == [] then []
    else
      Roots(s[..|s| - 1]) + (if s[|s| - 1].base.None? then [s[|s| - 1]] else [])
  }

  lemma {:induction false} RootsAppend(a: seq<StructDecl>, b: seq<StructDecl>)
    ensures Roots(a + b) == Roots(a) + Roots(b)
    decreases |b|
  {
    if b == [] {
      assert a + b == a;
    } else {
      assert (a + b)[..|a + b| - 1] == a + b[..|b| - 1];
      RootsAppend(a, b[..|b| - 1]);
    }
  }

  /** Structs without a base are accepted in the order they were queued. */
  lemma {:induction false} DrainRoots(pending: seq<StructDecl>, accepted: seq<StructDecl>)
    requires Drains(pending, accepted)
    ensures Roots(Drain(pending, accepted)) == Roots(accepted) + Roots(pending)
    decreases |pending|, FirstReady(pending, accepted)
  {
    if pending != [] {
      var current, rest := pending[0], pending[1..];
      assert pending == [current] + rest;
      if Ready(current, accepted) {
        DrainsAccept(pending, accepted);
        DrainRoots(rest, accepted + [current]);
        assert Drain(pending, accepted) == Drain(rest, accepted + [current]);
        RootsAcceptStep(accepted, current, rest);
      } else {
        DrainsRequeue(pending, accepted);
        RequeueProgress(pending, accepted);
        DrainRoots(rest + [current], accepted);
        assert Drain(pending, accepted) == Drain(rest + [current], accepted);
        RootsRequeueStep(current, rest);
      }
    }
  }

  lemma RootsAcceptStep(accepted: seq<StructDecl>, current: StructDecl, rest: seq<StructDecl>)
    ensures Roots(accepted + [current]) + Roots(rest) == Roots(accepted) + Roots([current] + rest)
  {
    RootsAppend(accepted, [current]);
    RootsAppend([current], rest);
  }

  lemma RootsRequeueStep(current: StructDecl, rest: seq<StructDecl>)
    requires current.base.Some?
    ensures Roots(rest + [current]) == Roots([current] + rest)
  {
    RootsOne(current);
    RootsAppend(rest, [current]);
    RootsAppend([current], rest);
  }

  lemma RootsOne(s: StructDecl)
    ensures Roots([s]) == if s.base.None? then [s] else []
  {
    assert [s][..0] == [];
  }

  /** With no base anywhere the queue accepts everything at the first pass. */
  lemma {:induction false} DrainWithoutBases(pending: seq<StructDecl>, accepted: seq<StructDecl>)
    requires forall i :: 0 <= i < |pending| ==> pending[i].base.None?
    ensures Drains(pending, accepted)
    ensures Drain(pending, accepted) == accepted + pending
    decreases |pending|
  {
    assert Drains(pending, accepted) by {
      forall s | s in pending ensures exists k: nat :: ReachesRoot(multiset(accepted + pending), s, k) {
        assert ReachesRoot(multiset(accepted + pending), s, 0);
      }
    }
    if pending != [] {
      DrainWithoutBases(pending[1..], accepted + [pending[0]]);
      assert accepted + pending == accepted + [pending[0]] + pending[1..];
    }
  }

  /** No two structs share a name, as in a model. */
  predicate UniqueNames(r: seq<StructDecl>) {
    forall i, j :: 0 <= i < j < |r| ==> r[i].name != r[j].name
  }

  /** Distinct names pin a name to one position: the unique-names fact in the form the callers use. */
  lemma SameName(r: seq<StructDecl>, m: nat, n: nat)
    requires UniqueNames(r) && m < |r| && n < |r| && r[m].name == r[n].name
    ensures m == n
  {
  }

  /** `r[j]` is reached from `r[i]` by following `steps` base links through `r`. */
  ghost predicate AncestorAt(r: seq<StructDecl>, i: nat, j: nat, steps: nat)
    requires i < |r| && j < |r|
    decreases steps
  {
    if steps == 0 then i == j
    else exists m :: 0 <= m < |r| && r[i].base == Some(r[m].name) && AncestorAt(r, m, j, steps - 1)
  }

  /** Every base link points backwards in `r`. */
  ghost predicate LinksBackward(r: seq<StructDecl>) {
    forall a, b :: 0 <= a < |r| && 0 <= b < |r| && r[a].base == Some(r[b].name) ==> b < a
  }

  /** With unique names, the struct a base names is the one found before it. */
  lemma BackwardLinks(r: seq<StructDecl>)
    requires BasesBefore(r) && UniqueNames(r)
    ensures LinksBackward(r)
  {
    forall a, b | 0 <= a < |r| && 0 <= b < |r| && r[a].base == Some(r[b].name) ensures b < a {
      var n :| 0 <= n < a && r[n].name == r[a].base.value;
      SameName(r, b, n);
    }
  }

  lemma {:induction false} AncestorsBack(r: seq<StructDecl>, i: nat, j: nat, steps: nat)
    requires LinksBackward(r)
    requires i < |r| && j < |r| && steps > 0 && AncestorAt(r, i, j, steps)
    ensures j < i
    decreases steps
  {
    var m :| 0 <= m < |r| && r[i].base == Some(r[m].name) && AncestorAt(r, m, j, steps - 1);
    if steps > 1 {
      AncestorsBack(r, m, j, steps - 1);
    }
  }

  /** When names are unique, all ancestors of a struct come before it. */
  lemma AncestorsBefore(r: seq<StructDecl>, i: nat, j: nat, steps: nat)
    requires BasesBefore(r) && UniqueNames(r)
    requires i < |r| && j < |r| && steps > 0 && AncestorAt(r, i, j, steps)
    ensures j < i
  {
    BackwardLinks(r);
    AncestorsBack(r, i, j, steps);
  }

  /** The order holds every struct once: a permutation of the name-sorted list and of the model's list. */
  lemma OrderPermutation(structs: seq<StructDecl>)
    requires Acyclic(multiset(structs))
    ensures multiset(Order(structs)) == multiset(SortBy(structs, StructName)) == multiset(structs)
  {
    StartDrains(SortBy(structs, StructName), structs);
    DrainPermutation(SortBy(structs, StructName), []);
  }

  /** In the order every base comes before the structs that extend it, and so every ancestor. */
  lemma OrderBasesBefore(structs: seq<StructDecl>)
    requires Acyclic(multiset(structs))
    ensures BasesBefore(Order(structs))
  {
    StartDrains(SortBy(structs, StructName), structs);
    DrainBasesBefore(SortBy(structs, StructName), []);
  }

  /**
   * In a model whose struct names are unique, every ancestor of a struct,
   * however many base links up, is declared before it.
   */
  lemma OrderAncestorsBefore(structs: seq<StructDecl>, i: nat, j: nat, steps: nat)
    requires Acyclic(multiset(structs)) && UniqueNames(structs)
    requires i < |Order(structs)| && j < |Order(structs)| && steps > 0 && AncestorAt(Order(structs), i, j, steps)
    ensures j < i
  {
    OrderPermutation(structs);
    UniqueByMultiset(structs, Order(structs));
    OrderBasesBefore(structs);
    AncestorsBefore(Order(structs), i, j, steps);
  }

  /** Unique names are a property of the structs present, not of their order. */
  lemma UniqueByMultiset(a: seq<StructDecl>, b: seq<StructDecl>)
    requires multiset(a) == multiset(b) && UniqueNames(a)
    ensures UniqueNames(b)
  {
    forall i, j | 0 <= i < j < |b| ensures b[i].name != b[j].name {
      AtMostOnce(a, b[i]);
      OncePositions(b, i, j);
      DistinctNames(a, b[i], b[j]);
    }
  }

  /** An element that occurs at most once is found at no second position. */
  lemma OncePositions(b: seq<StructDecl>, i: nat, j: nat)
    requires i < j < |b| && multiset(b)[b[i]] <= 1
    ensures b[i] != b[j]
  {
    assert b == b[..j] + [b[j]] + b[j + 1..];
    assert b[i] == b[..j][i];
    assert multiset(b[..j])[b[i]] >= 1;
  }

  /** Two different structs of a list with unique names have different names. */
  lemma DistinctNames(a: seq<StructDecl>, x: StructDecl, y: StructDecl)
    requires UniqueNames(a) && x in multiset(a) && y in multiset(a) && x != y
    ensures x.name != y.name
  {
    var p :| 0 <= p < |a| && a[p] == x;
    var q :| 0 <= q < |a| && a[q] == y;
    if p < q {
      assert a[p].name != a[q].name;
    } else {
      assert a[q].name != a[p].name;
    }
  }

  /** With unique names no struct occurs twice. */
  lemma {:induction false} AtMostOnce(a: seq<StructDecl>, x: StructDecl)
    requires UniqueNames(a)
    ensures multiset(a)[x] <= 1
    decreases |a|
  {
    if a != [] {
      assert a == [a[0]] + a[1..];
      assert UniqueNames(a[1..]) by {
        forall i, j | 0 <= i < j < |a[1..]| ensures a[1..][i].name != a[1..][j].name {
          assert a[1..][i] == a[i + 1] && a[1..][j] == a[j + 1];
        }
      }
      AtMostOnce(a[1..], x);
      if x == a[0] {
        assert x !in a[1..] by {
          forall k | 0 <= k < |a[1..]| ensures a[1..][k] != x {
            assert a[1..][k] == a[k + 1];
            assert a[0].name != a[k + 1].name;
          }
        }
      }
    }
  }

  /** The structs without a base keep their sorted-by-name order. */
  lemma OrderRoots(structs: seq<StructDecl>)
    requires Acyclic(multiset(structs))
    ensures Roots(Order(structs)) == Roots(SortBy(structs, StructName))
  {
    StartDrains(SortBy(structs, StructName), structs);
    DrainRoots(SortBy(structs, StructName), []);
  }

  lemma NoBaseIn(structs: seq<StructDecl>, s: StructDecl)
    requires forall i :: 0 <= i < |structs| ==> structs[i].base.None?
    requires s in multiset(structs)
    ensures s.base.None?
  {
    var i :| 0 <= i < |structs| && structs[i] == s;
  }

  /** Without inheritance the order is the name order. */
  lemma OrderWithoutBases(structs: seq<StructDecl>)
    requires forall i :: 0 <= i < |structs| ==> structs[i].base.None?
    ensures Acyclic(multiset(structs))
    ensures Order(structs) == SortBy(structs, StructName)
  {
    var pending := SortBy(structs, StructName);
    assert Acyclic(multiset(structs)) by {
      forall s | s in multiset(structs) ensures exists k: nat :: ReachesRoot(multiset(structs), s, k) {
        assert ReachesRoot(multiset(structs), s, 0);
      }
    }
    forall i | 0 <= i < |pending| ensures pending[i].base.None? {
      assert pending[i] in multiset(pending);
      NoBaseIn(structs, pending[i]);
    }
    DrainWithoutBases(pending, []);
  }

  /**
   * The ordering loop of generateSource: the struct list sorted by name feeds
   * a queue, and `sorted` collects the structs as they are accepted.
   */
  method OrderStructs(structs: seq<StructDecl>) returns (sorted: seq<StructDecl>)
    requires Acyclic(multiset(structs))
    ensures sorted == Order(structs)
  {
    var pending := SortBy(structs, StructName);
    StartDrains(pending, structs);
    sorted := [];
    while pending != []
      invariant Drains(pending, sorted)
      invariant Drain(pending, sorted) == Order(structs)
      decreases |pending|, FirstReady(pending, sorted)
    {
      var current := pending[0];
      if current.base.None? || HasName(sorted, current.base.value) {
        DrainsAccept(pending, sorted);
        pending := pending[1..];
        sorted := sorted + [current];
      } else {
        DrainsRequeue(pending, sorted);
        RequeueProgress(pending, sorted);
        pending := pending[1..] + [current];
      }
    }
  }
}
