/**
 * The AsyncAPI viewer: flattening of allOf and $ref, and the order in which the properties of a
 * schema are rendered.
 */
module AsyncApi {

  datatype Schema = Schema(
    required: seq<string>, properties: map<string, string>, order: seq<string>,
    allOf: seq<Schema>, ref: string)

  const EMPTY: Schema := Schema([], map[], [], [], "")

  type Components = map<string, Schema>

  const PREFIX: string := "#/components/schemas/"

  /** strings.TrimPrefix on a reference. */
  function Name(ref: string): string {
    if PREFIX <= ref then ref[|PREFIX|..] else ref
  }

  predicate Refers(sc: Schema, comps: Components) {
    sc.allOf == [] && sc.ref != "" && Name(sc.ref) in comps
  }

  // ---- acyclic references ------------------------------------------------------------------

  /** A rank for every component; the reference graph is acyclic when references go down. */
  type Ranking = map<string, nat>

  predicate Below(sc: Schema, comps: Components, rank: Ranking, bound: nat)
    requires comps.Keys <= rank.Keys
  {
    if sc.allOf == [] then Refers(sc, comps) ==> rank[Name(sc.ref)] < bound
    else forall sub :: sub in sc.allOf ==> Below(sub, comps, rank, bound)
  }

  ghost predicate Acyclic(comps: Components, rank: Ranking) {
    && comps.Keys <= rank.Keys
    && forall n :: n in comps ==> Below(comps[n], comps, rank, rank[n])
  }

  // ---- what resolveSchema computes -----------------------------------------------------------

  /** The keys of `b` appended to `a`, each only if it is not there yet. */
  function Extend(a: seq<string>, b: seq<string>): seq<string> {
    if b == [] then a
    else
      var p, k := Extend(a, b[..|b| - 1]), b[|b| - 1];
      if k in p then p else p + [k]
  }

  /** One round of the merge loop. */
  function Add(acc: Schema, s: Schema): Schema {
    Schema(acc.required + s.required, acc.properties + s.properties, Extend(acc.order, s.order), [], "")
  }

  function AddAll(acc: Schema, ss: seq<Schema>): Schema {
    if ss == [] then acc else Add(AddAll(acc, ss[..|ss| - 1]), ss[|ss| - 1])
  }

  ghost function Resolve(sc: Schema, comps: Components, rank: Ranking, bound: nat): Schema
    requires Acyclic(comps, rank) && Below(sc, comps, rank, bound)
    decreases bound, sc, 1
  {
    if sc.allOf == [] then
      if Refers(sc, comps) then Resolve(comps[Name(sc.ref)], comps, rank, rank[Name(sc.ref)]) else sc
    else AddAll(EMPTY, ResolveAll(sc, |sc.allOf|, comps, rank, bound))
  }

  ghost function ResolveAll(sc: Schema, n: nat, comps: Components, rank: Ranking, bound: nat): (r: seq<Schema>)
    requires Acyclic(comps, rank) && Below(sc, comps, rank, bound) && n <= |sc.allOf|
    ensures |r| == n
    decreases bound, sc, 0, n
  {
    if n == 0 then [] else
      ResolveAll(sc, n - 1, comps, rank, bound) + [Resolve(sc.allOf[n - 1], comps, rank, bound)]
  }

  lemma {:induction false} ExtendHas(a: seq<string>, b: seq<string>, k: string)
    ensures k in Extend(a, b) <==> k in a || k in b
  {
    if b != [] {
      ExtendHas(a, b[..|b| - 1], k);
      ExtendHas(a, b[..|b| - 1], b[|b| - 1]);
      assert b == b[..|b| - 1] + [b[|b| - 1]];
    }
  }

  /** resolveSchema: recursion over references and allOf, a merge loop with a `seen` set. */
  method ResolveSchema(sc: Schema, comps: Components, ghost rank: Ranking, ghost bound: nat) returns (out: Schema)
    requires Acyclic(comps, rank) && Below(sc, comps, rank, bound)
    ensures out == Resolve(sc, comps, rank, bound)
    ensures sc.allOf == [] ==> forall n :: n in comps && sc.ref == "#/components/schemas/" + n ==>
      Below(comps[n], comps, rank, rank[n]) && out == Resolve(comps[n], comps, rank, rank[n])
    ensures sc.allOf == [] && (forall n :: n in comps ==> sc.ref != n && sc.ref != "#/components/schemas/" + n) ==>
      out == sc
    decreases bound, sc
  {
    if sc.allOf == [] {
      forall n | n in comps && sc.ref == "#/components/schemas/" + n
        ensures Below(comps[n], comps, rank, rank[n])
        ensures Resolve(sc, comps, rank, bound) == Resolve(comps[n], comps, rank, rank[n])
      {
        ReferenceResolves(sc, n, comps, rank, bound);
      }
      if forall n :: n in comps ==> sc.ref != n && sc.ref != "#/components/schemas/" + n {
        DanglingStays(sc, comps, rank, bound);
      }
    }
    if |sc.allOf| == 0 {
      if sc.ref != "" {
        var name := Name(sc.ref);
        if name in comps {
          out := ResolveSchema(comps[name], comps, rank, rank[name]);
          return;
        }
      }
      return sc;
    }
    out := EMPTY;
    var seen: set<string> := {};
    ghost var done: seq<Schema> := [];
    for i := 0 to |sc.allOf|
      invariant done == ResolveAll(sc, i, comps, rank, bound)
      invariant out == AddAll(EMPTY, done)
      invariant forall k :: k in seen <==> k in out.order
    {
      var resolved := ResolveSchema(sc.allOf[i], comps, rank, bound);
      ghost var before := out;
      var order := out.order;
      for j := 0 to |resolved.order|
        invariant order == Extend(before.order, resolved.order[..j])
        invariant forall k :: k in seen <==> k in order
      {
        var k := resolved.order[j];
        assert resolved.order[..j + 1][..j] == resolved.order[..j];
        if k !in seen {
          seen := seen + {k};
          order := order + [k];
        }
      }
      assert resolved.order[..|resolved.order|] == resolved.order;
      out := Schema(out.required + resolved.required, out.properties + resolved.properties, order, [], "");
      ghost var was := done;
      done := done + [resolved];
      assert done[..|done| - 1] == was;
    }
  }

  /** A reference reaches the component it names, with or without the prefix. */
  lemma ReferenceResolves(sc: Schema, n: string, comps: Components, rank: Ranking, bound: nat)
    requires Acyclic(comps, rank) && Below(sc, comps, rank, bound) && sc.allOf == [] && n in comps
    requires sc.ref == "#/components/schemas/" + n || (sc.ref == n && n != "" && !("#/components/schemas/" <= n))
    ensures Below(comps[n], comps, rank, rank[n])
    ensures Resolve(sc, comps, rank, bound) == Resolve(comps[n], comps, rank, rank[n])
  {
    assert Name(sc.ref) == n;
  }

  /** A schema without allOf that names no component stays what it is. */
  lemma DanglingStays(sc: Schema, comps: Components, rank: Ranking, bound: nat)
    requires Acyclic(comps, rank) && Below(sc, comps, rank, bound) && sc.allOf == []
    requires sc.ref == "" || forall n :: n in comps ==> sc.ref != n && sc.ref != "#/components/schemas/" + n
    ensures Resolve(sc, comps, rank, bound) == sc
  {
    if sc.ref != "" && PREFIX <= sc.ref { assert sc.ref == "#/components/schemas/" + Name(sc.ref); }
  }

  // ---- and what that means: a flat merge of the leaves ---------------------------------------

  /** The schemas reached through allOf and $ref that have neither, in document order. */
  ghost function Leaves(sc: Schema, comps: Components, rank: Ranking, bound: nat): seq<Schema>
    requires Acyclic(comps, rank) && Below(sc, comps, rank, bound)
    decreases bound, sc, 1
  {
    if sc.allOf == [] then
      if Refers(sc, comps) then Leaves(comps[Name(sc.ref)], comps, rank, rank[Name(sc.ref)]) else [sc]
    else LeavesAll(sc, |sc.allOf|, comps, rank, bound)
  }

  ghost function LeavesAll(sc: Schema, n: nat, comps: Components, rank: Ranking, bound: nat): seq<Schema>
    requires Acyclic(comps, rank) && Below(sc, comps, rank, bound) && n <= |sc.allOf|
    decreases bound, sc, 0, n
  {
    if n == 0 then [] else
      LeavesAll(sc, n - 1, comps, rank, bound) + Leaves(sc.allOf[n - 1], comps, rank, bound)
  }

  lemma {:induction false} ExtendAssoc(a: seq<string>, b: seq<string>, c: seq<string>)
    ensures Extend(a, Extend(b, c)) == Extend(Extend(a, b), c)
  {
    if c != [] {
      var c', k := c[..|c| - 1], c[|c| - 1];
      ExtendAssoc(a, b, c');
      ExtendHas(a, Extend(b, c'), k);
      var e := Extend(b, c');
      if k !in e { assert (e + [k])[..|e|] == e; }
    }
  }

  lemma {:induction false} AddFlat(acc: Schema, ss: seq<Schema>)
    requires acc.allOf == [] && acc.ref == ""
    ensures Add(acc, AddAll(EMPTY, ss)) == AddAll(acc, ss)
  {
    if ss != [] {
      var front, x := ss[..|ss| - 1], ss[|ss| - 1];
      AddFlat(acc, front);
      AddAssoc(acc, AddAll(EMPTY, front), x);
    } else {
      assert acc.required + [] == acc.required && acc.properties + map[] == acc.properties;
    }
  }

  lemma AddAssoc(a: Schema, b: Schema, c: Schema)
    ensures Add(a, Add(b, c)) == Add(Add(a, b), c)
  {
    ExtendAssoc(a.order, b.order, c.order);
    assert a.required + (b.required + c.required) == a.required + b.required + c.required;
    assert a.properties + (b.properties + c.properties) == a.properties + b.properties + c.properties;
  }

  lemma {:induction false} AddAllConcat(acc: Schema, ss: seq<Schema>, tt: seq<Schema>)
    ensures AddAll(acc, ss + tt) == AddAll(AddAll(acc, ss), tt)
  {
    if tt == [] {
      assert ss + tt == ss;
    } else {
      var n := |tt| - 1;
      AddAllConcat(acc, ss, tt[..n]);
      assert (ss + tt)[..|ss| + n] == ss + tt[..n];
    }
  }

  /**
   * Whatever the nesting, resolving yields the schema itself when there is nothing to merge, and
   * otherwise the flat merge of all leaves; merging it further is merging its leaves.
   */
  lemma {:induction false} ResolveIsFlat(sc: Schema, comps: Components, rank: Ranking, bound: nat)
    requires Acyclic(comps, rank) && Below(sc, comps, rank, bound)
    ensures var r, leaves := Resolve(sc, comps, rank, bound), Leaves(sc, comps, rank, bound);
            (leaves == [r] && r.allOf == [] && !Refers(r, comps)) || r == AddAll(EMPTY, leaves)
    ensures sc.allOf != [] ==> Resolve(sc, comps, rank, bound) == AddAll(EMPTY, Leaves(sc, comps, rank, bound))
    decreases bound, sc, 1
  {
    if sc.allOf == [] {
      if Refers(sc, comps) {
        ResolveIsFlat(comps[Name(sc.ref)], comps, rank, rank[Name(sc.ref)]);
      }
    } else {
      PrefixIsFlat(sc, |sc.allOf|, comps, rank, bound);
    }
  }

  lemma {:induction false} PrefixIsFlat(sc: Schema, n: nat, comps: Components, rank: Ranking, bound: nat)
    requires Acyclic(comps, rank) && Below(sc, comps, rank, bound) && sc.allOf != [] && n <= |sc.allOf|
    ensures AddAll(EMPTY, ResolveAll(sc, n, comps, rank, bound)) == AddAll(EMPTY, LeavesAll(sc, n, comps, rank, bound))
    decreases bound, sc, 0, n
  {
    if n > 0 {
      var sub := sc.allOf[n - 1];
      PrefixIsFlat(sc, n - 1, comps, rank, bound);
      ResolveIsFlat(sub, comps, rank, bound);
      OneMoreMerge(ResolveAll(sc, n - 1, comps, rank, bound), Resolve(sub, comps, rank, bound),
                   LeavesAll(sc, n - 1, comps, rank, bound), Leaves(sub, comps, rank, bound));
    }
  }

  /** Merging a resolved schema is merging its leaves. */
  lemma OneMoreMerge(rs: seq<Schema>, r: Schema, ls: seq<Schema>, l: seq<Schema>)
    requires AddAll(EMPTY, rs) == AddAll(EMPTY, ls) && (l == [r] || r == AddAll(EMPTY, l))
    ensures AddAll(EMPTY, rs + [r]) == AddAll(EMPTY, ls + l)
  {
    AddAllOne(EMPTY, rs, r);
    if l == [r] {
      AddAllOne(EMPTY, ls, r);
    } else {
      AddAllConcat(EMPTY, ls, l);
      AddAllShape(EMPTY, ls);
      AddFlat(AddAll(EMPTY, ls), l);
    }
  }

  lemma AddAllOne(acc: Schema, ss: seq<Schema>, s: Schema)
    ensures AddAll(acc, ss + [s]) == Add(AddAll(acc, ss), s)
  {
    assert (ss + [s])[..|ss|] == ss;
  }

  lemma AddAllShape(acc: Schema, ss: seq<Schema>)
    requires acc.allOf == [] && acc.ref == ""
    ensures AddAll(acc, ss).allOf == [] && AddAll(acc, ss).ref == ""
  {
  }

  // ---- reading the flat merge ----------------------------------------------------------------

  /** The property set is the union over the leaves, and of two definitions the last wins. */
  lemma {:induction false} LastDefinitionWins(leaves: seq<Schema>, key: string, i: nat)
    requires i < |leaves| && key in leaves[i].properties
    requires forall j :: i < j < |leaves| ==> key !in leaves[j].properties
    ensures key in AddAll(EMPTY, leaves).properties &&
      AddAll(EMPTY, leaves).properties[key] == leaves[i].properties[key]
  {
    var n := |leaves| - 1;
    if i < n {
      LastDefinitionWins(leaves[..n], key, i);
    }
  }

  lemma {:induction false} NoOtherProperties(leaves: seq<Schema>, key: string)
    requires key in AddAll(EMPTY, leaves).properties
    ensures exists i :: 0 <= i < |leaves| && key in leaves[i].properties
  {
    var n := |leaves| - 1;
    if key in leaves[n].properties {
    } else {
      NoOtherProperties(leaves[..n], key);
      var i :| 0 <= i < n && key in leaves[..n][i].properties;
      assert key in leaves[i].properties;
    }
  }

  /** The merge requires exactly what some leaf requires. */
  lemma {:induction false} RequiredUnion(leaves: seq<Schema>, key: string)
    ensures key in AddAll(EMPTY, leaves).required <==> exists i :: 0 <= i < |leaves| && key in leaves[i].required
  {
    if leaves != [] {
      var n := |leaves| - 1;
      RequiredUnion(leaves[..n], key);
      assert forall i :: 0 <= i < n ==> leaves[..n][i] == leaves[i];
    }
  }

  function Orders(leaves: seq<Schema>): seq<string> {
    if leaves == [] then [] else Orders(leaves[..|leaves| - 1]) + leaves[|leaves| - 1].order
  }

  lemma {:induction false} ExtendConcat(a: seq<string>, b: seq<string>, c: seq<string>)
    ensures Extend(a, b + c) == Extend(Extend(a, b), c)
  {
    if c == [] {
      assert b + c == b;
    } else {
      assert (b + c)[..|b| + |c| - 1] == b + c[..|c| - 1];
      ExtendConcat(a, b, c[..|c| - 1]);
    }
  }

  lemma {:induction false} MergedOrder(leaves: seq<Schema>)
    ensures AddAll(EMPTY, leaves).order == Extend([], Orders(leaves))
  {
    if leaves != [] {
      var n := |leaves| - 1;
      MergedOrder(leaves[..n]);
      ExtendConcat([], Orders(leaves[..n]), leaves[n].order);
    }
  }

  /** The least index of `k`. */
  function First(s: seq<string>, k: string): (i: nat)
    requires k in s
    ensures i < |s| && s[i] == k && k !in s[..i]
  {
    if k in s[..|s| - 1] then
      var i := First(s[..|s| - 1], k);
      assert s[..|s| - 1][..i] == s[..i];
      i
    else |s| - 1
  }

  /** The merged order is duplicate-free and follows first occurrences. */
  lemma {:induction false} FirstOccurrenceOrder(s: seq<string>)
    ensures var r := Extend([], s);
            && (forall k :: k in r <==> k in s)
            && forall i, j :: 0 <= i < j < |r| ==>
                 r[i] in s && r[j] in s && r[i] != r[j] && First(s, r[i]) < First(s, r[j])
  {
    var r := Extend([], s);
    forall k ensures k in r <==> k in s { ExtendHas([], s, k); }
    if s != [] {
      var s', last := s[..|s| - 1], s[|s| - 1];
      FirstOccurrenceOrder(s');
      var r' := Extend([], s');
      forall i, j | 0 <= i < j < |r| ensures r[i] in s && r[j] in s && r[i] != r[j] && First(s, r[i]) < First(s, r[j]) {
        assert r[i] in r && r[j] in r;
        if j < |r'| { assert r[i] == r'[i] && r[j] == r'[j] && r'[i] in s' && r'[j] in s'; }
        else { assert r[i] == r'[i] && r'[i] in r' && r'[i] in s'; }
      }
    }
  }

  // ---- rendering order -----------------------------------------------------------------------

  function Filter(s: seq<string>, req: set<string>, want: bool): seq<string> {
    if s == [] then []
    else Filter(s[..|s| - 1], req, want) + if (s[|s| - 1] in req) == want then [s[|s| - 1]] else []
  }

  /** A stable sort by "required before not required". */
  function RequiredFirst(s: seq<string>, req: set<string>): seq<string> {
    Filter(s, req, true) + Filter(s, req, false)
  }

  lemma {:induction false} FilterKeeps(s: seq<string>, req: set<string>, want: bool)
    ensures forall k :: k in Filter(s, req, want) ==> (k in req) == want
  {
    if s != [] { FilterKeeps(s[..|s| - 1], req, want); }
  }

  lemma {:induction false} FilterOfUniform(s: seq<string>, req: set<string>, inside: bool)
    requires forall k :: k in s ==> (k in req) == inside
    ensures Filter(s, req, inside) == s && Filter(s, req, !inside) == []
  {
    if s != [] {
      assert s == s[..|s| - 1] + [s[|s| - 1]] && s[|s| - 1] in s;
      FilterOfUniform(s[..|s| - 1], req, inside);
    }
  }

  lemma {:induction false} FilterConcat(a: seq<string>, b: seq<string>, req: set<string>, want: bool)
    ensures Filter(a + b, req, want) == Filter(a, req, want) + Filter(b, req, want)
  {
    if b == [] {
      assert a + b == a;
    } else {
      assert (a + b)[..|a| + |b| - 1] == a + b[..|b| - 1];
      FilterConcat(a, b[..|b| - 1], req, want);
    }
  }

  lemma {:induction false} FilterSplits(s: seq<string>, req: set<string>)
    ensures multiset(Filter(s, req, true)) + multiset(Filter(s, req, false)) == multiset(s)
  {
    if s != [] {
      FilterSplits(s[..|s| - 1], req);
      assert s == s[..|s| - 1] + [s[|s| - 1]];
    }
  }

  lemma GroupOfConcat(a: seq<string>, b: seq<string>, req: set<string>, want: bool)
    requires (forall k :: k in a ==> k in req) && (forall k :: k in b ==> k !in req)
    ensures Filter(a + b, req, want) == if want then a else b
  {
    FilterOfUniform(a, req, true);
    FilterOfUniform(b, req, false);
    FilterConcat(a, b, req, want);
  }

  lemma RequiredLead(a: seq<string>, b: seq<string>, req: set<string>, i: nat, j: nat)
    requires (forall k :: k in a ==> k in req) && (forall k :: k in b ==> k !in req)
    requires i < j < |a + b| && (a + b)[j] in req
    ensures (a + b)[i] in req
  {
    var c := a + b;
    assert c[j] in if j < |a| then a else b;
    assert c[i] in if i < |a| then a else b;
  }

  /**
   * Required-first is a stable permutation: the same keys, required ones before the others, the
   * order within each group kept; doing it again changes nothing.
   */
  lemma RequiredFirstIsStable(s: seq<string>, req: set<string>)
    ensures var r := RequiredFirst(s, req);
            && multiset(r) == multiset(s) && |r| == |s|
            && (forall i, j :: 0 <= i < j < |r| && r[j] in req ==> r[i] in req)
            && Filter(r, req, true) == Filter(s, req, true)
            && Filter(r, req, false) == Filter(s, req, false)
            && RequiredFirst(r, req) == r
  {
    var a, b := Filter(s, req, true), Filter(s, req, false);
    FilterKeeps(s, req, true);
    FilterKeeps(s, req, false);
    GroupOfConcat(a, b, req, true);
    GroupOfConcat(a, b, req, false);
    forall i, j | 0 <= i < j < |a + b| && (a + b)[j] in req ensures (a + b)[i] in req { RequiredLead(a, b, req, i, j); }
    SamePermutation(s, req);
  }

  lemma SamePermutation(s: seq<string>, req: set<string>)
    ensures multiset(RequiredFirst(s, req)) == multiset(s) && |RequiredFirst(s, req)| == |s|
  {
    FilterSplits(s, req);
    assert |multiset(RequiredFirst(s, req))| == |multiset(s)|;
  }

  /** The keys to render: the declared order, or the sorted keys, and then whatever was missing. */
  function KeysToRender(order: seq<string>, sorted: seq<string>): seq<string> {
    Extend(if order == [] then sorted else order, sorted)
  }

  /** Go's append on a slice whose array is full moves to a new array; else the sort is in place. */
  ghost predicate SortsInPlace(order: seq<string>, sorted: seq<string>) {
    order != [] && forall k :: k in sorted ==> k in order
  }

  lemma {:induction false} ExtendNothing(a: seq<string>, b: seq<string>)
    requires forall k :: k in b ==> k in a
    ensures Extend(a, b) == a
  {
    if b != [] {
      assert b == b[..|b| - 1] + [b[|b| - 1]] && b[|b| - 1] in b;
      ExtendNothing(a, b[..|b| - 1]);
    }
  }

  /** The guard loop: properties missing from the declared order go to the end. */
  method AppendMissing(declared: seq<string>, sorted: seq<string>) returns (keys: seq<string>, appended: bool)
    requires forall i, j :: 0 <= i < j < |sorted| ==> sorted[i] != sorted[j]
    ensures keys == Extend(declared, sorted)
    ensures !appended <==> forall k :: k in sorted ==> k in declared
  {
    keys, appended := declared, false;
    for i := 0 to |sorted|
      invariant keys == Extend(declared, sorted[..i])
      invariant !appended <==> forall k :: k in sorted[..i] ==> k in declared
    {
      var before := sorted[..i];
      assert sorted[..i + 1] == before + [sorted[i]] && (before + [sorted[i]])[..i] == before;
      ExtendHas(declared, before, sorted[i]);
      if sorted[i] !in declared {
        keys, appended := keys + [sorted[i]], true;
      }
    }
    assert sorted[..|sorted|] == sorted;
  }

  method Overwrite(a: array<string>, s: seq<string>)
    requires a.Length == |s|
    modifies a
    ensures a[..] == s
  {
    for i := 0 to a.Length
      invariant a[..i] == s[..i]
    {
      a[i] := s[i];
    }
  }

  /** Every property is shown, and each key of the declared order; required ones come first. */
  lemma ShowsAll(order: seq<string>, sorted: seq<string>, req: set<string>)
    ensures forall k :: k in Shown(order, sorted, req) <==> k in order || k in sorted
    ensures var r := Shown(order, sorted, req); forall i, j :: 0 <= i < j < |r| && r[j] in req ==> r[i] in req
  {
    var keys := KeysToRender(order, sorted);
    RequiredFirstIsStable(keys, req);
    SameKeys(keys, RequiredFirst(keys, req));
    forall k ensures k in keys <==> k in order || k in sorted {
      ExtendHas(if order == [] then sorted else order, sorted, k);
    }
  }

  lemma ShownLength(order: seq<string>, sorted: seq<string>, req: set<string>)
    requires SortsInPlace(order, sorted)
    ensures |Shown(order, sorted, req)| == |order|
  {
    ExtendNothing(order, sorted);
    SamePermutation(order, req);
  }

  /** The key ordering of renderPropsTable; `sorted` are the map's keys in sorted order, each once. */
  method RenderKeys(order: array<string>, sorted: seq<string>, req: set<string>) returns (keys: seq<string>)
    requires forall i, j :: 0 <= i < j < |sorted| ==> sorted[i] != sorted[j]
    modifies order
    ensures keys == Shown(old(order[..]), sorted, req)
    ensures order[..] == Left(old(order[..]), sorted, req)
  {
    var declared := if order.Length == 0 then sorted else order[..];
    var whole, appended := AppendMissing(declared, sorted);
    keys := RequiredFirst(whole, req);
    if order.Length > 0 && !appended {
      ShownLength(order[..], sorted, req);
      Overwrite(order, keys);
    }
  }

  /** What a rendering shows, and what it leaves in the order array of the schema. */
  ghost function Shown(order: seq<string>, sorted: seq<string>, req: set<string>): seq<string> {
    RequiredFirst(KeysToRender(order, sorted), req)
  }

  ghost function Left(order: seq<string>, sorted: seq<string>, req: set<string>): seq<string> {
    if SortsInPlace(order, sorted) then Shown(order, sorted, req) else order
  }

  /**
   * Rendering a parsed schema again gives the same order, although the first rendering may have
   * sorted its order array in place; from then on the array does not change any more.
   */
  lemma RerenderSame(order: seq<string>, sorted: seq<string>, req: set<string>)
    ensures Shown(Left(order, sorted, req), sorted, req) == Shown(order, sorted, req)
    ensures Left(Left(order, sorted, req), sorted, req) == Left(order, sorted, req)
  {
    if SortsInPlace(order, sorted) {
      ShownInPlace(order, sorted, req);
      ShownInPlace(RequiredFirst(order, req), sorted, req);
      RequiredFirstIsStable(order, req);
    }
  }

  lemma ShownInPlace(order: seq<string>, sorted: seq<string>, req: set<string>)
    requires SortsInPlace(order, sorted)
    ensures Shown(order, sorted, req) == RequiredFirst(order, req) && SortsInPlace(RequiredFirst(order, req), sorted)
  {
    ExtendNothing(order, sorted);
    SamePermutation(order, req);
    SameKeys(order, RequiredFirst(order, req));
  }

  lemma SameKeys(a: seq<string>, b: seq<string>)
    requires multiset(a) == multiset(b)
    ensures |a| == |b| && forall k :: k in a <==> k in b
  {
    assert forall k :: k in a <==> k in multiset(a);
    assert forall k :: k in b <==> k in multiset(b);
    assert |a| == |multiset(a)|;
  }
}
