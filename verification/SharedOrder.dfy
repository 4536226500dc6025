/**
 * The document is parsed once and rendered again and again. An allOf schema shares the order arrays
 * of the components it refers to, and rendering a component sorts its array in place: exactly when
 * does the allOf schema still show its properties in the same order?
 */
module SharedOrder {
  import opened AsyncApi

  function Keys(s: seq<string>): set<string> {
    set k | k in s
  }

  // ---- what a leaf adds to the merged order ---------------------------------------------------

  /** The keys of `b` that are not in `have`, each at its first occurrence. */
  function Fresh(have: set<string>, b: seq<string>): seq<string> {
    if b == [] then []
    else
      var r, k := Fresh(have, b[..|b| - 1]), b[|b| - 1];
      if k in have || k in r then r else r + [k]
  }

  lemma {:induction false} FreshHas(have: set<string>, b: seq<string>, k: string)
    ensures k in Fresh(have, b) <==> k in b && k !in have
  {
    if b != [] {
      FreshHas(have, b[..|b| - 1], k);
      assert b == b[..|b| - 1] + [b[|b| - 1]];
    }
  }

  lemma {:induction false} ExtendIsFresh(a: seq<string>, b: seq<string>)
    ensures Extend(a, b) == a + Fresh(Keys(a), b)
  {
    if b != [] { ExtendIsFresh(a, b[..|b| - 1]); }
  }

  lemma {:induction false} FilterFresh(have: set<string>, b: seq<string>, req: set<string>, want: bool)
    ensures Filter(Fresh(have, b), req, want) == Fresh(have, Filter(b, req, want))
  {
    if b != [] {
      var b', k := b[..|b| - 1], b[|b| - 1];
      var f, g := Fresh(have, b'), Filter(b', req, want);
      FilterFresh(have, b', req, want);
      FilterHas(f, req, want, k);
      FilterOne(f, k, req, want);
      FreshOne(have, g, k);
      assert Filter(f, req, want) + [] == Filter(f, req, want) && g + [] == g;
    }
  }

  lemma FreshOne(have: set<string>, b: seq<string>, k: string)
    ensures Fresh(have, b + [k]) == if k in have || k in Fresh(have, b) then Fresh(have, b) else Fresh(have, b) + [k]
  {
    assert (b + [k])[..|b|] == b;
  }

  lemma {:induction false} FilterHas(s: seq<string>, req: set<string>, want: bool, k: string)
    ensures k in Filter(s, req, want) <==> k in s && (k in req) == want
  {
    if s != [] {
      FilterHas(s[..|s| - 1], req, want, k);
      assert s == s[..|s| - 1] + [s[|s| - 1]];
    }
  }

  lemma {:induction false} FreshConcat(have: set<string>, a: seq<string>, b: seq<string>)
    requires forall k :: k in a ==> k !in b
    ensures Fresh(have, a + b) == Fresh(have, a) + Fresh(have, b)
  {
    if b == [] {
      assert a + b == a;
    } else {
      var b', k := b[..|b| - 1], b[|b| - 1];
      assert b == b' + [k] && (a + b)[..|a + b| - 1] == a + b';
      FreshConcat(have, a, b');
      FreshHas(have, a, k);
    }
  }

  /** Sorting a leaf's order sorts what the leaf adds. */
  lemma FreshOfSorted(have: set<string>, b: seq<string>, req: set<string>)
    ensures Fresh(have, RequiredFirst(b, req)) == RequiredFirst(Fresh(have, b), req)
  {
    var x, y := Filter(b, req, true), Filter(b, req, false);
    FilterKeeps(b, req, true);
    FilterKeeps(b, req, false);
    FreshConcat(have, x, y);
    FilterFresh(have, b, req, true);
    FilterFresh(have, b, req, false);
  }

  lemma SortedKeys(s: seq<string>, req: set<string>)
    ensures Keys(RequiredFirst(s, req)) == Keys(s)
  {
    forall k ensures k in RequiredFirst(s, req) <==> k in s {
      FilterHas(s, req, true, k);
      FilterHas(s, req, false, k);
    }
  }

  // ---- when sorting a leaf's share by its own required keys does not show ---------------------

  /** No key that only the whole requires stands before one the leaf itself requires. */
  predicate Steady(seg: seq<string>, own: set<string>, all: set<string>) {
    forall x, y :: 0 <= x < y < |seg| && seg[x] in all && seg[y] in own ==> seg[x] in own
  }

  lemma {:induction false} FilterTwice(s: seq<string>, p: set<string>, u: bool, q: set<string>, w: bool)
    ensures Filter(Filter(s, p, u), q, w) == Filter(Filter(s, q, w), p, u)
  {
    if s != [] {
      var s', k := s[..|s| - 1], s[|s| - 1];
      FilterTwice(s', p, u, q, w);
      FilterOne(Filter(s', p, u), k, q, w);
      FilterOne(Filter(s', q, w), k, p, u);
      assert Filter(s', p, u) + [] == Filter(s', p, u) && Filter(s', q, w) + [] == Filter(s', q, w);
      var x := Filter(Filter(s', p, u), q, w);
      assert x + [] == x;
    }
  }

  lemma FilterOne(s: seq<string>, k: string, q: set<string>, w: bool)
    ensures Filter(s + [k], q, w) == Filter(s, q, w) + if (k in q) == w then [k] else []
  {
    assert (s + [k])[..|s|] == s;
  }

  lemma FilterAll(s: seq<string>, own: set<string>, all: set<string>)
    requires own <= all
    ensures Filter(Filter(s, own, true), all, true) == Filter(s, own, true) &&
      Filter(Filter(s, own, true), all, false) == []
  {
    FilterKeeps(s, own, true);
    FilterOfUniform(Filter(s, own, true), all, true);
  }

  /** What the whole requires of a sorted share: the leaf's own required keys, then the others. */
  lemma RequiredOfSorted(seg: seq<string>, own: set<string>, all: set<string>)
    requires own <= all
    ensures Filter(RequiredFirst(seg, own), all, true) == Own(seg, own) + Others(seg, own, all)
    ensures Filter(RequiredFirst(seg, own), all, false) == Filter(seg, all, false)
  {
    FilterAll(seg, own, all);
    FilterConcat(Filter(seg, own, true), Filter(seg, own, false), all, true);
    FilterConcat(Filter(seg, own, true), Filter(seg, own, false), all, false);
    FilterTwice(seg, own, false, all, false);
    FilterKeeps(seg, all, false);
    FilterOfUniform(Filter(seg, all, false), own, false);
  }

  lemma SteadyOne(seg: seq<string>, k: string, own: set<string>, all: set<string>)
    ensures Steady(seg + [k], own, all) <==> Steady(seg, own, all) && (k in own ==> Others(seg, own, all) == [])
  {
    var c, g := seg + [k], Others(seg, own, all);
    assert c[|seg|] == k && forall x :: 0 <= x < |seg| ==> c[x] == seg[x];
    forall z ensures z in g <==> z in seg && z in all && z !in own {
      FilterHas(Filter(seg, own, false), all, true, z);
      FilterHas(seg, own, false, z);
    }
    if g != [] { assert g[0] in g; }
  }

  /** The keys of a share that the leaf requires, and those that only the whole does. */
  function Own(seg: seq<string>, own: set<string>): seq<string> { Filter(seg, own, true) }

  function Others(seg: seq<string>, own: set<string>, all: set<string>): seq<string> {
    Filter(Filter(seg, own, false), all, true)
  }

  lemma OthersOne(seg: seq<string>, k: string, own: set<string>, all: set<string>)
    ensures Others(seg + [k], own, all) == if k !in own &&
      k in all then Others(seg, own, all) + [k] else Others(seg, own, all)
  {
    var f := Filter(seg, own, false);
    FilterOne(seg, k, own, false);
    FilterOne(f, k, all, true);
    assert f + [] == f && Others(seg, own, all) + [] == Others(seg, own, all);
  }

  lemma FilterAdds(s: seq<string>, k: string, req: set<string>)
    ensures Filter(s + [k], req, true) == if k in req then Filter(s, req, true) + [k] else Filter(s, req, true)
  {
    FilterOne(s, k, req, true);
  }

  lemma OneMoreKey(s: seq<string>, k: string, own: set<string>, all: set<string>)
    requires own <= all
    requires Own(s, own) + Others(s, own, all) == Filter(s, all, true) <==> Steady(s, own, all)
    ensures Own(s + [k], own) + Others(s + [k], own, all) == Filter(s + [k], all, true) <==> Steady(s + [k], own, all)
  {
    var f, g, r := Own(s, own), Others(s, own, all), Filter(s, all, true);
    FilterAdds(s, k, own);
    FilterAdds(s, k, all);
    OthersOne(s, k, own, all);
    SteadyOne(s, k, own, all);
    if k in own {
      NotOwn(s, own, all);
      OwnDecides(f, g, r, k, own);
    } else if k in all {
      OtherDecides(f, g, r, k);
    }
  }

  lemma {:induction false} OwnFirstIff(seg: seq<string>, own: set<string>, all: set<string>)
    requires own <= all
    ensures Own(seg, own) + Others(seg, own, all) == Filter(seg, all, true) <==> Steady(seg, own, all)
  {
    if seg != [] {
      var s, k := seg[..|seg| - 1], seg[|seg| - 1];
      OwnFirstIff(s, own, all);
      OneMoreKey(s, k, own, all);
      assert seg == s + [k];
    }
  }

  lemma SteadyIff(seg: seq<string>, own: set<string>, all: set<string>)
    requires own <= all
    ensures Filter(RequiredFirst(seg, own), all, true) == Filter(seg, all, true) <==> Steady(seg, own, all)
  {
    RequiredOfSorted(seg, own, all);
    OwnFirstIff(seg, own, all);
  }

  lemma NotOwn(s: seq<string>, own: set<string>, all: set<string>)
    ensures forall z :: z in Others(s, own, all) ==> z !in own
  {
    forall z | z in Others(s, own, all) ensures z !in own {
      FilterHas(Filter(s, own, false), all, true, z);
      FilterHas(s, own, false, z);
    }
  }

  lemma OwnDecides(f: seq<string>, g: seq<string>, r: seq<string>, k: string, own: set<string>)
    requires k in own && forall z :: z in g ==> z !in own
    ensures f + [k] + g == r + [k] <==> g == [] && f + g == r
  {
    if g != [] {
      var c := f + [k] + g;
      assert c[|c| - 1] == g[|g| - 1] && g[|g| - 1] in g;
      assert |c| == |r| + 1 ==> (r + [k])[|c| - 1] == k;
    } else {
      assert f + [k] + g == f + [k] && f + g == f;
      SameEnd(f, r, k);
    }
  }

  lemma OtherDecides(f: seq<string>, g: seq<string>, r: seq<string>, k: string)
    ensures f + (g + [k]) == r + [k] <==> f + g == r
  {
    assert f + (g + [k]) == (f + g) + [k];
    SameEnd(f + g, r, k);
  }

  lemma SameEnd(a: seq<string>, b: seq<string>, k: string)
    ensures a + [k] == b + [k] <==> a == b
  {
    if a + [k] == b + [k] { assert a == (a + [k])[..|a|] == (b + [k])[..|b|] == b; }
  }

  // ---- the merged order, share by share --------------------------------------------------------

  function Merged(leaves: seq<Schema>): seq<string> {
    AddAll(EMPTY, leaves).order
  }

  /** What leaf i adds to the merged order. */
  function Share(leaves: seq<Schema>, i: nat): seq<string>
    requires i < |leaves|
  {
    Fresh(Keys(Merged(leaves[..i])), leaves[i].order)
  }

  /** The leaf after its component was rendered: its order array is sorted. */
  function SortedLeaf(sc: Schema): Schema {
    sc.(order := RequiredFirst(sc.order, Keys(sc.required)))
  }

  /** The leaves after the components of those in `done` were rendered. */
  function After(leaves: seq<Schema>, done: set<nat>): (r: seq<Schema>)
    ensures |r| == |leaves|
  {
    seq(|leaves|, i requires 0 <= i < |leaves| => if i in done then SortedLeaf(leaves[i]) else leaves[i])
  }

  lemma MergedStep(leaves: seq<Schema>)
    requires leaves != []
    ensures var n := |leaves| - 1; Merged(leaves) == Merged(leaves[..n]) + Share(leaves, n)
  {
    ExtendIsFresh(Merged(leaves[..|leaves| - 1]), leaves[|leaves| - 1].order);
  }

  lemma ShareAfter(leaves: seq<Schema>, done: set<nat>)
    requires leaves != []
    requires var n := |leaves| - 1; Keys(Merged(After(leaves[..n], done))) == Keys(Merged(leaves[..n]))
    ensures var n := |leaves| - 1;
            && After(leaves, done)[..n] == After(leaves[..n], done)
            && Share(After(leaves, done), n) ==
                 if n in done then RequiredFirst(Share(leaves, n), Keys(leaves[n].required)) else Share(leaves, n)
  {
    var n := |leaves| - 1;
    assert After(leaves, done)[..n] == After(leaves[..n], done);
    FreshOfSorted(Keys(Merged(leaves[..n])), leaves[n].order, Keys(leaves[n].required));
  }

  /** The same keys, those not in `all` in the same order. */
  ghost predicate Like(m': seq<string>, m: seq<string>, all: set<string>) {
    Keys(m') == Keys(m) && Filter(m', all, false) == Filter(m, all, false) &&
        |Filter(m', all, true)| == |Filter(m, all, true)|
  }

  ghost predicate Same(m': seq<string>, m: seq<string>, all: set<string>) {
    Filter(m', all, true) == Filter(m, all, true)
  }

  predicate AllSteady(leaves: seq<Schema>, done: set<nat>, all: set<string>) {
    forall i :: 0 <= i < |leaves| && i in done ==> Steady(Share(leaves, i), Keys(leaves[i].required), all)
  }

  lemma AllSteadyStep(leaves: seq<Schema>, done: set<nat>, all: set<string>)
    requires leaves != []
    ensures var n := |leaves| - 1;
            AllSteady(leaves, done, all) <==>
            AllSteady(leaves[..n], done, all) && (n in done ==> Steady(Share(leaves, n), Keys(leaves[n].required), all))
  {
    var n := |leaves| - 1;
    forall i | 0 <= i < n ensures Share(leaves[..n], i) == Share(leaves, i) && leaves[..n][i] == leaves[i] {
      assert leaves[..n][..i] == leaves[..i];
    }
  }

  lemma SameConcat(a: seq<string>, x: seq<string>, b: seq<string>, y: seq<string>)
    requires |a| == |b|
    ensures a + x == b + y <==> a == b && x == y
  {
    if a + x == b + y { assert a == (a + x)[..|a|] == b && x == (a + x)[|a|..] == y; }
  }

  lemma ShareSorted(seg: seq<string>, own: set<string>, all: set<string>)
    requires own <= all
    ensures Like(RequiredFirst(seg, own), seg, all)
    ensures Same(RequiredFirst(seg, own), seg, all) <==> Steady(seg, own, all)
  {
    SortedKeys(seg, own);
    RequiredOfSorted(seg, own, all);
    SteadyIff(seg, own, all);
    SamePermutation(seg, own);
    FilterLengths(RequiredFirst(seg, own), all);
    FilterLengths(seg, all);
  }

  lemma FilterLengths(s: seq<string>, req: set<string>)
    ensures |Filter(s, req, true)| + |Filter(s, req, false)| == |s|
  {
    SamePermutation(s, req);
  }

  /** One more leaf, whose share is `x` before and `y` after. */
  lemma OneMoreShare(m: seq<string>, m': seq<string>, x: seq<string>, y: seq<string>, all: set<string>)
    requires Like(m', m, all) && Like(y, x, all)
    ensures Like(m' + y, m + x, all) && (Same(m' + y, m + x, all) <==> Same(m', m, all) && Same(y, x, all))
  {
    forall w: bool
      ensures Filter(m' + y, all, w) == Filter(m', all, w) + Filter(y, all, w) &&
        Filter(m + x, all, w) == Filter(m, all, w) + Filter(x, all, w) {
      FilterConcat(m', y, all, w);
      FilterConcat(m, x, all, w);
    }
    SameConcat(Filter(m', all, true), Filter(y, all, true), Filter(m, all, true), Filter(x, all, true));
    KeysConcat(m, x);
    KeysConcat(m', y);
  }

  lemma KeysConcat(a: seq<string>, b: seq<string>)
    ensures Keys(a + b) == Keys(a) + Keys(b)
  {
  }

  lemma {:induction false} MergedLike(leaves: seq<Schema>, done: set<nat>, all: set<string>)
    requires forall i :: 0 <= i < |leaves| ==> Keys(leaves[i].required) <= all
    ensures Like(Merged(After(leaves, done)), Merged(leaves), all)
    ensures Same(Merged(After(leaves, done)), Merged(leaves), all) <==> AllSteady(leaves, done, all)
  {
    if leaves == [] {
      assert After(leaves, done) == [];
    } else {
      MergedLike(leaves[..|leaves| - 1], done, all);
      OneMoreLeaf(leaves, done, all);
    }
  }

  lemma OneMoreLeaf(leaves: seq<Schema>, done: set<nat>, all: set<string>)
    requires leaves != [] && Keys(leaves[|leaves| - 1].required) <= all
    requires var front := leaves[..|leaves| - 1];
             && Like(Merged(After(front, done)), Merged(front), all)
             && (Same(Merged(After(front, done)), Merged(front), all) <==> AllSteady(front, done, all))
    ensures Like(Merged(After(leaves, done)), Merged(leaves), all)
    ensures Same(Merged(After(leaves, done)), Merged(leaves), all) <==> AllSteady(leaves, done, all)
  {
    var n := |leaves| - 1;
    var x, own := Share(leaves, n), Keys(leaves[n].required);
    var y := if n in done then RequiredFirst(x, own) else x;
    MergedStep(leaves);
    MergedAfter(leaves, done);
    ShareLike(x, y, own, all, n in done);
    AllSteadyStep(leaves, done, all);
    OneMoreShare(Merged(leaves[..n]), Merged(After(leaves[..n], done)), x, y, all);
  }

  lemma ShareLike(x: seq<string>, y: seq<string>, own: set<string>, all: set<string>, rendered: bool)
    requires own <= all && y == if rendered then RequiredFirst(x, own) else x
    ensures Like(y, x, all) && (Same(y, x, all) <==> (rendered ==> Steady(x, own, all)))
  {
    ShareSorted(x, own, all);
  }

  lemma MergedAfter(leaves: seq<Schema>, done: set<nat>)
    requires leaves != []
    requires var n := |leaves| - 1; Keys(Merged(After(leaves[..n], done))) == Keys(Merged(leaves[..n]))
    ensures var n := |leaves| - 1;
            Merged(After(leaves, done)) == Merged(After(leaves[..n], done)) +
              if n in done then RequiredFirst(Share(leaves, n), Keys(leaves[n].required)) else Share(leaves, n)
  {
    MergedStep(After(leaves, done));
    ShareAfter(leaves, done);
  }

  // ---- what is shown -----------------------------------------------------------------------------

  lemma ShownIs(m: seq<string>, sorted: seq<string>, all: set<string>)
    requires m != []
    ensures var tail := Fresh(Keys(m), sorted);
            Shown(m, sorted, all) ==
                Filter(m, all, true) + (Filter(tail, all, true) + (Filter(m, all, false) + Filter(tail, all, false)))
  {
    var tail := Fresh(Keys(m), sorted);
    ExtendIsFresh(m, sorted);
    FilterConcat(m, tail, all, true);
    FilterConcat(m, tail, all, false);
    Regroup(Filter(m, all, true), Filter(tail, all, true), Filter(m, all, false) + Filter(tail, all, false));
  }

  lemma Regroup(a: seq<string>, b: seq<string>, c: seq<string>)
    ensures a + b + c == a + (b + c)
  {
  }

  lemma {:induction false} RequiredAfter(leaves: seq<Schema>, done: set<nat>)
    ensures AddAll(EMPTY, After(leaves, done)).required == AddAll(EMPTY, leaves).required
  {
    if leaves != [] {
      var n := |leaves| - 1;
      RequiredAfter(leaves[..n], done);
      assert After(leaves, done)[..n] == After(leaves[..n], done);
    } else {
      assert After(leaves, done) == [];
    }
  }

  lemma {:induction false} LeafRequired(leaves: seq<Schema>, i: nat)
    requires i < |leaves|
    ensures Keys(leaves[i].required) <= Keys(AddAll(EMPTY, leaves).required)
  {
    var n := |leaves| - 1;
    if i < n { LeafRequired(leaves[..n], i); }
  }

  /**
   * An allOf schema with these leaves, rendered before and after the components in `done` were:
   * it requires the same keys, and shows them in the same order if and only if in the share of
   * every such component no key that another leaf requires stands before one of its own.
   */
  lemma AllOfStableIff(leaves: seq<Schema>, done: set<nat>, sorted: seq<string>)
    ensures var m, m' := AddAll(EMPTY, leaves), AddAll(EMPTY, After(leaves, done));
            var all := Keys(m.required);
            && m'.required == m.required
            && (Shown(m'.order, sorted, all) == Shown(m.order, sorted, all) <==> AllSteady(leaves, done, all))
  {
    var m, m' := Merged(leaves), Merged(After(leaves, done));
    var all := Keys(AddAll(EMPTY, leaves).required);
    RequiredAfter(leaves, done);
    forall i | 0 <= i < |leaves| ensures Keys(leaves[i].required) <= all { LeafRequired(leaves, i); }
    MergedLike(leaves, done, all);
    if m == [] {
      if m' != [] { SomeKey(m'); }
    } else {
      SomeKey(m);
      ShownIs(m, sorted, all);
      ShownIs(m', sorted, all);
      var tail := Fresh(Keys(m), sorted);
      var end := Filter(tail, all, true) + (Filter(m, all, false) + Filter(tail, all, false));
      SameConcat(Filter(m', all, true), end, Filter(m, all, true), end);
    }
  }

  lemma SomeKey(s: seq<string>)
    requires s != []
    ensures Keys(s) != {}
  {
    assert s[0] in Keys(s);
  }

  lemma FirstShare(leaves: seq<Schema>, p: string, q: string)
    requires leaves != [] && leaves[0].order == [p, q] && p != q
    ensures Share(leaves, 0) == [p, q]
  {
    assert leaves[..0] == [] && Keys([]) == {};
    assert [] + [p] == [p] && [p] + [q] == [p, q];
    FreshOne({}, [], p);
    FreshOne({}, [p], q);
  }

  /**
   * A component that lists p before q and requires q, in an allOf whose other leaves require p:
   * once the component has been rendered, the allOf schema shows another order than before.
   */
  lemma ComponentCanReorder(leaves: seq<Schema>, other: nat, p: string, q: string, sorted: seq<string>)
    requires 0 < other < |leaves| && leaves[0].order == [p, q] && p != q
    requires q in leaves[0].required && p !in leaves[0].required && p in leaves[other].required
    ensures var m, m' := AddAll(EMPTY, leaves), AddAll(EMPTY, After(leaves, {0}));
            Shown(m'.order, sorted, Keys(m.required)) != Shown(m.order, sorted, Keys(m.required))
  {
    var all := Keys(AddAll(EMPTY, leaves).required);
    LeafRequired(leaves, other);
    FirstShare(leaves, p, q);
    assert !Steady([p, q], Keys(leaves[0].required), all) by {
      assert [p, q][0] in all && [p, q][1] in Keys(leaves[0].required) && [p, q][0] !in Keys(leaves[0].required);
    }
    AllOfStableIff(leaves, {0}, sorted);
  }
}
