/**
 * Rendering components, and what that does to an allOf schema that refers to them: the merge reads
 * the order arrays the components own, and renderPropsTable may have sorted those in place.
 */
module Rendering {
  import opened Domain
  import opened AsyncApi
  import opened SharedOrder

  // ---- the components after some of them were rendered -------------------------------------

  predicate IsLeaf(sc: Schema, comps: Components) {
    sc.allOf == [] && !Refers(sc, comps)
  }

  /** There is something to render and the declared order lists all of it, so the sort is in place. */
  predicate InPlace(sc: Schema) {
    sc.properties != map[] && sc.order != [] && forall k :: k in sc.properties ==> k in sc.order
  }

  function RenderedLeaf(sc: Schema): Schema {
    if InPlace(sc) then SortedLeaf(sc) else sc
  }

  /** This is what renderPropsTable leaves in the array, in whatever order the map's keys are sorted. */
  lemma RenderedLeafIsLeft(sc: Schema, sorted: seq<string>)
    requires sc.properties != map[] && Keys(sorted) == sc.properties.Keys
    ensures RenderedLeaf(sc) == sc.(order := Left(sc.order, sorted, Keys(sc.required)))
  {
    assert forall k :: k in sorted <==> k in Keys(sorted);
    if SortsInPlace(sc.order, sorted) { ShownInPlace(sc.order, sorted, Keys(sc.required)); }
  }

  /** The components after the arrays of those in `names` were rendered; a merge has no array of its own here. */
  function Rendered(comps: Components, names: set<string>): Components {
    map n | n in comps :: if n in names && IsLeaf(comps[n], comps) then RenderedLeaf(comps[n]) else comps[n]
  }

  /** The component whose array is shown when `n` is rendered: `n`, or where its references lead. */
  ghost function Target(n: string, comps: Components, rank: Ranking): (t: string)
    requires Acyclic(comps, rank) && n in comps
    ensures t in comps && !Refers(comps[t], comps)
    decreases rank[n]
  {
    assert Below(comps[n], comps, rank, rank[n]);
    if Refers(comps[n], comps) then Target(Name(comps[n].ref), comps, rank) else n
  }

  /** Rendering `n` is rendering the target it resolves to. */
  lemma {:induction false} TargetIsResolved(n: string, comps: Components, rank: Ranking)
    requires Acyclic(comps, rank) && n in comps
    requires IsLeaf(comps[Target(n, comps, rank)], comps)
    ensures Below(comps[n], comps, rank, rank[n])
    ensures Resolve(comps[n], comps, rank, rank[n]) == comps[Target(n, comps, rank)]
    decreases rank[n]
  {
    if Refers(comps[n], comps) {
      assert Below(comps[n], comps, rank, rank[n]);
      TargetIsResolved(Name(comps[n].ref), comps, rank);
    }
  }

  ghost function Targets(comps: Components, rank: Ranking, names: set<string>): set<string>
    requires Acyclic(comps, rank)
  {
    set n | n in names && n in comps :: Target(n, comps, rank)
  }

  /** Rendering more components, or the same ones again, adds up. */
  lemma RenderedAgain(comps: Components, a: set<string>, b: set<string>)
    ensures Rendered(Rendered(comps, a), b) == Rendered(comps, a + b)
  {
    var once := Rendered(comps, a);
    forall n | n in comps ensures Rendered(once, b)[n] == Rendered(comps, a + b)[n] {
      assert IsLeaf(once[n], once) <==> IsLeaf(comps[n], comps);
      SortedTwice(comps[n]);
    }
  }

  lemma SortedTwice(sc: Schema)
    ensures RenderedLeaf(RenderedLeaf(sc)) == RenderedLeaf(sc)
  {
    if InPlace(sc) {
      SortedKeys(sc.order, Keys(sc.required));
      RequiredFirstIsStable(sc.order, Keys(sc.required));
      assert forall k :: k in sc.order <==> k in Keys(sc.order);
    }
  }

  // ---- shape is kept --------------------------------------------------------------------------

  lemma {:induction false} BelowRendered(sc: Schema, comps: Components, names: set<string>, rank: Ranking, bound: nat)
    requires comps.Keys <= rank.Keys && Below(sc, comps, rank, bound)
    ensures Rendered(comps, names).Keys == comps.Keys && Below(sc, Rendered(comps, names), rank, bound)
    decreases sc
  {
    if sc.allOf != [] {
      forall sub | sub in sc.allOf ensures Below(sub, Rendered(comps, names), rank, bound) {
        BelowRendered(sub, comps, names, rank, bound);
      }
    }
  }

  lemma AcyclicRendered(comps: Components, names: set<string>, rank: Ranking)
    requires Acyclic(comps, rank)
    ensures Acyclic(Rendered(comps, names), rank)
  {
    var later := Rendered(comps, names);
    assert later.Keys == comps.Keys;
    forall n | n in later ensures Below(later[n], later, rank, rank[n]) {
      BelowRendered(comps[n], comps, names, rank, rank[n]);
      if n in names && IsLeaf(comps[n], comps) { assert later[n].allOf == [] && later[n].ref == comps[n].ref; }
    }
  }

  // ---- where the leaves come from ----------------------------------------------------------------

  /** The component each leaf is, or None for one written inline; `here` is that of `sc` itself. */
  ghost function Origins(sc: Schema, here: Option<string>, comps: Components, rank: Ranking,
                         bound: nat): (r: seq<Option<string>>)
    requires Acyclic(comps, rank) && Below(sc, comps, rank, bound)
    ensures |r| == |Leaves(sc, comps, rank, bound)|
    decreases bound, sc, 1
  {
    if sc.allOf == [] then
      if Refers(sc, comps) then
        var n := Name(sc.ref);
        Origins(comps[n], Some(n), comps, rank, rank[n])
      else [here]
    else OriginsAll(sc, |sc.allOf|, comps, rank, bound)
  }

  ghost function OriginsAll(sc: Schema, n: nat, comps: Components, rank: Ranking, bound: nat): (r: seq<Option<string>>)
    requires Acyclic(comps, rank) && Below(sc, comps, rank, bound) && n <= |sc.allOf|
    ensures |r| == |LeavesAll(sc, n, comps, rank, bound)|
    decreases bound, sc, 0, n
  {
    if n == 0 then [] else
      OriginsAll(sc, n - 1, comps, rank, bound) + Origins(sc.allOf[n - 1], None, comps, rank, bound)
  }

  predicate Touches(origin: Option<string>, names: set<string>) {
    origin.Some? && origin.value in names
  }

  function Touched(leaves: seq<Schema>, origins: seq<Option<string>>, names: set<string>): (r: seq<Schema>)
    requires |leaves| == |origins|
    ensures |r| == |leaves|
  {
    seq(|leaves|, i requires 0 <= i < |leaves| => if Touches(origins[i], names) then RenderedLeaf(leaves[i])
        else leaves[i])
  }

  lemma TouchedConcat(a: seq<Schema>, oa: seq<Option<string>>, b: seq<Schema>, ob: seq<Option<string>>,
                      names: set<string>)
    requires |a| == |oa| && |b| == |ob|
    ensures Touched(a + b, oa + ob, names) == Touched(a, oa, names) + Touched(b, ob, names)
  {
  }

  /** The schema as the merge meets it after the rendering: a named one may have been rendered. */
  function Met(sc: Schema, here: Option<string>, comps: Components, names: set<string>): Schema {
    if Touches(here, names) && IsLeaf(sc, comps) then RenderedLeaf(sc) else sc
  }

  lemma MetShape(sc: Schema, here: Option<string>, comps: Components, names: set<string>, rank: Ranking, bound: nat)
    requires Acyclic(comps, rank) && Below(sc, comps, rank, bound)
    ensures Acyclic(Rendered(comps, names), rank)
    ensures Below(Met(sc, here, comps, names), Rendered(comps, names), rank, bound)
  {
    AcyclicRendered(comps, names, rank);
    BelowRendered(sc, comps, names, rank, bound);
    assert Rendered(comps, names).Keys == comps.Keys;
  }

  /** The leaves after the rendering: those that are rendered components, as rendered. */
  ghost predicate LeavesFollow(sc: Schema, here: Option<string>, comps: Components, names: set<string>, rank: Ranking,
                               bound: nat)
    requires Acyclic(comps, rank) && Below(sc, comps, rank, bound)
  {
    var later := Rendered(comps, names);
    && Acyclic(later, rank) && Below(Met(sc, here, comps, names), later, rank, bound)
    && Leaves(Met(sc, here, comps, names), later, rank, bound) ==
       Touched(Leaves(sc, comps, rank, bound), Origins(sc, here, comps, rank, bound), names)
  }

  lemma LeafFollows(sc: Schema, here: Option<string>, comps: Components, names: set<string>, rank: Ranking, bound: nat)
    requires Acyclic(comps, rank) && Below(sc, comps, rank, bound) && IsLeaf(sc, comps)
    ensures LeavesFollow(sc, here, comps, names, rank, bound)
  {
    MetShape(sc, here, comps, names, rank, bound);
    assert Rendered(comps, names).Keys == comps.Keys;
    assert IsLeaf(Met(sc, here, comps, names), Rendered(comps, names));
  }

  lemma {:induction false} LeavesRendered(sc: Schema, here: Option<string>, comps: Components, names: set<string>,
                                          rank: Ranking, bound: nat)
    requires Acyclic(comps, rank) && Below(sc, comps, rank, bound)
    ensures LeavesFollow(sc, here, comps, names, rank, bound)
    decreases bound, sc, 1
  {
    MetShape(sc, here, comps, names, rank, bound);
    if IsLeaf(sc, comps) {
      LeafFollows(sc, here, comps, names, rank, bound);
    } else if sc.allOf == [] {
      var n := Name(sc.ref);
      LeavesRendered(comps[n], Some(n), comps, names, rank, rank[n]);
      assert Rendered(comps, names)[n] == Met(comps[n], Some(n), comps, names);
    } else {
      PrefixRendered(sc, |sc.allOf|, comps, names, rank, bound);
    }
  }

  lemma {:induction false} PrefixRendered(sc: Schema, n: nat, comps: Components, names: set<string>, rank: Ranking,
                                          bound: nat)
    requires Acyclic(comps, rank) && Below(sc, comps, rank, bound) && sc.allOf != [] && n <= |sc.allOf|
    ensures Acyclic(Rendered(comps, names), rank) && Below(sc, Rendered(comps, names), rank, bound)
    ensures LeavesAll(sc, n, Rendered(comps, names), rank, bound) ==
            Touched(LeavesAll(sc, n, comps, rank, bound), OriginsAll(sc, n, comps, rank, bound), names)
    decreases bound, sc, 0, n
  {
    MetShape(sc, None, comps, names, rank, bound);
    if n > 0 {
      var sub := sc.allOf[n - 1];
      PrefixRendered(sc, n - 1, comps, names, rank, bound);
      LeavesRendered(sub, None, comps, names, rank, bound);
      TouchedConcat(LeavesAll(sc, n - 1, comps, rank, bound), OriginsAll(sc, n - 1, comps, rank, bound),
                    Leaves(sub, comps, rank, bound), Origins(sub, None, comps, rank, bound), names);
    }
  }

  // ---- the allOf schema, before and after ----------------------------------------------------------

  /** The leaves whose arrays a rendering of `names` has sorted. */
  ghost function Done(sc: Schema, comps: Components, rank: Ranking, bound: nat, names: set<string>): set<nat>
    requires Acyclic(comps, rank) && Below(sc, comps, rank, bound)
  {
    var leaves, origins := Leaves(sc, comps, rank, bound), Origins(sc, None, comps, rank, bound);
    set i: nat | i < |leaves| && Touches(origins[i], names) && InPlace(leaves[i])
  }

  lemma TouchedIsAfter(sc: Schema, comps: Components, rank: Ranking, bound: nat, names: set<string>)
    requires Acyclic(comps, rank) && Below(sc, comps, rank, bound)
    ensures Touched(Leaves(sc, comps, rank, bound), Origins(sc, None, comps, rank, bound), names) ==
            After(Leaves(sc, comps, rank, bound), Done(sc, comps, rank, bound, names))
  {
  }

  lemma {:induction false} PropertiesAfter(leaves: seq<Schema>, done: set<nat>)
    ensures AddAll(EMPTY, After(leaves, done)).properties == AddAll(EMPTY, leaves).properties
  {
    if leaves != [] {
      var n := |leaves| - 1;
      PropertiesAfter(leaves[..n], done);
      assert After(leaves, done)[..n] == After(leaves[..n], done);
    } else {
      assert After(leaves, done) == [];
    }
  }

  /** Resolving an allOf schema over the rendered components merges the leaves as sorted. */
  lemma ResolveRendered(sc: Schema, comps: Components, rank: Ranking, bound: nat, names: set<string>)
    requires Acyclic(comps, rank) && Below(sc, comps, rank, bound) && sc.allOf != []
    ensures var leaves := Leaves(sc, comps, rank, bound);
            && Acyclic(Rendered(comps, names), rank) && Below(sc, Rendered(comps, names), rank, bound)
            && Resolve(sc, comps, rank, bound) == AddAll(EMPTY, leaves)
            && Resolve(sc, Rendered(comps, names), rank, bound) ==
                 AddAll(EMPTY, After(leaves, Done(sc, comps, rank, bound, names)))
  {
    LeavesRendered(sc, None, comps, names, rank, bound);
    TouchedIsAfter(sc, comps, rank, bound, names);
    ResolveIsFlat(sc, comps, rank, bound);
    ResolveIsFlat(sc, Rendered(comps, names), rank, bound);
  }

  /**
   * An allOf schema, resolved before and after any components were rendered, in whatever order and
   * however often: the same properties and required keys, shown in the same order if and only if
   * in what each sorted leaf adds no key that only another leaf requires stands before one of its own.
   */
  lemma RenderedStableIff(sc: Schema, comps: Components, rank: Ranking, bound: nat, names: set<string>,
                          sorted: seq<string>)
    requires Acyclic(comps, rank) && Below(sc, comps, rank, bound) && sc.allOf != []
    ensures var targets := Targets(comps, rank, names);
            var later := Rendered(comps, targets);
            && Acyclic(later, rank) && Below(sc, later, rank, bound)
            && var r, r' := Resolve(sc, comps, rank, bound), Resolve(sc, later, rank, bound);
               var all := Keys(r.required);
               && r'.required == r.required && r'.properties == r.properties
               && (Shown(r'.order, sorted, all) == Shown(r.order, sorted, all) <==>
                   AllSteady(Leaves(sc, comps, rank, bound), Done(sc, comps, rank, bound, targets), all))
  {
    var targets := Targets(comps, rank, names);
    var leaves, done := Leaves(sc, comps, rank, bound), Done(sc, comps, rank, bound, targets);
    ResolveRendered(sc, comps, rank, bound, targets);
    PropertiesAfter(leaves, done);
    AllOfStableIff(leaves, done, sorted);
  }

  /**
   * Schemas on which the order does change: a component lists p before q and requires q but not p,
   * and an allOf merges it with an inline part that requires p. Rendering the component is enough.
   */
  lemma RenderingCanReorder(sc: Schema, n: string, comps: Components, rank: Ranking, bound: nat, p: string, q: string,
                            sorted: seq<string>)
    requires Acyclic(comps, rank) && Below(sc, comps, rank, bound) && |sc.allOf| == 2
    requires Refers(sc.allOf[0], comps) && Name(sc.allOf[0].ref) == n && IsLeaf(comps[n], comps) &&
      IsLeaf(sc.allOf[1], comps)
    requires p != q && comps[n].order == [p, q] && comps[n].properties.Keys == {p, q}
    requires q in comps[n].required && p !in comps[n].required && p in sc.allOf[1].required
    ensures var later := Rendered(comps, Targets(comps, rank, {n}));
            && Acyclic(later, rank) && Below(sc, later, rank, bound)
            && var r, r' := Resolve(sc, comps, rank, bound), Resolve(sc, later, rank, bound);
               Shown(r'.order, sorted, Keys(r.required)) != Shown(r.order, sorted, Keys(r.required))
  {
    TwoLeaves(sc, n, comps, rank, bound);
    assert p in comps[n].properties && InPlace(comps[n]);
    assert Targets(comps, rank, {n}) == {n};
    assert Done(sc, comps, rank, bound, {n}) == {0};
    ResolveRendered(sc, comps, rank, bound, {n});
    ComponentCanReorder(Leaves(sc, comps, rank, bound), 1, p, q, sorted);
  }

  lemma TwoLeaves(sc: Schema, n: string, comps: Components, rank: Ranking, bound: nat)
    requires Acyclic(comps, rank) && Below(sc, comps, rank, bound) && |sc.allOf| == 2
    requires Refers(sc.allOf[0], comps) && Name(sc.allOf[0].ref) == n && IsLeaf(comps[n], comps) &&
      IsLeaf(sc.allOf[1], comps)
    ensures Leaves(sc, comps, rank, bound) == [comps[n], sc.allOf[1]]
    ensures Origins(sc, None, comps, rank, bound) == [Some(n), None]
  {
    ReferredLeaf(sc.allOf[0], n, comps, rank, bound);
    assert LeavesAll(sc, 0, comps, rank, bound) == [] && OriginsAll(sc, 0, comps, rank, bound) == [];
    assert LeavesAll(sc, 1, comps, rank, bound) == [comps[n]];
    assert OriginsAll(sc, 1, comps, rank, bound) == [Some(n)];
    assert Leaves(sc.allOf[1], comps, rank, bound) == [sc.allOf[1]];
    assert Origins(sc.allOf[1], None, comps, rank, bound) == [None];
  }

  lemma ReferredLeaf(sub: Schema, n: string, comps: Components, rank: Ranking, bound: nat)
    requires Acyclic(comps, rank) && Below(sub, comps, rank, bound)
    requires Refers(sub, comps) && Name(sub.ref) == n && IsLeaf(comps[n], comps)
    ensures Leaves(sub, comps, rank, bound) == [comps[n]]
    ensures Origins(sub, None, comps, rank, bound) == [Some(n)]
  {
    assert Below(comps[n], comps, rank, rank[n]);
    assert Leaves(comps[n], comps, rank, rank[n]) == [comps[n]];
    assert Origins(comps[n], Some(n), comps, rank, rank[n]) == [Some(n)];
  }
}
