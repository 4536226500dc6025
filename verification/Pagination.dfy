/**
 * TAC-1 in pages. ORDER BY created_at fixes the order only up to ties, and each page is a query
 * of its own, so ties may fall differently from page to page.
 */
module Pagination {
  import opened Domain
  import opened EntryTable

  const DEFAULT_LIMIT: int := 100
  const MAX_LIMIT: int := 500

  /** A query parameter: absent, or present and an integer or not. */
  datatype Param = Absent | NotANumber | Number(value: int) {
    predicate AtLeast(low: int) { Absent? || (Number? && value >= low) }
  }

  /** parseListPagination. */
  method ParsePage(limitParam: Param, offsetParam: Param) returns (limit: int, offset: int, ok: bool)
    ensures ok <==> limitParam.AtLeast(1) && offsetParam.AtLeast(0)
    ensures ok ==> 1 <= limit <= 500 && offset >= 0
    ensures ok && limitParam.Number? ==> limit <= limitParam.value && (limit < 500 ==> limit == limitParam.value)
    ensures ok && limitParam.Absent? ==> limit == 100
    ensures ok ==> offset == if offsetParam.Number? then offsetParam.value else 0
  {
    limit := DEFAULT_LIMIT;
    if limitParam != Absent {
      if limitParam.NotANumber? || limitParam.value < 1 { return 0, 0, false; }
      limit := limitParam.value;
    }
    if limit > MAX_LIMIT { limit := MAX_LIMIT; }
    offset := 0;
    if offsetParam != Absent {
      if offsetParam.NotANumber? || offsetParam.value < 0 { return 0, 0, false; }
      offset := offsetParam.value;
    }
    ok := true;
  }

  function Elems(s: seq<Uuid>): set<Uuid> {
    set x | x in s
  }

  ghost predicate Distinct(s: seq<Uuid>) {
    forall i, j :: 0 <= i < j < |s| ==> s[i] != s[j]
  }

  /** `s` lists exactly the rows the query selects, each once, by created_at. */
  ghost predicate Ordering(t: Table, rows: set<Uuid>, s: seq<Uuid>) {
    && Distinct(s) && Elems(s) == rows
    && rows <= t.Keys
    && forall i, j :: 0 <= i < j < |s| ==> t[s[i]].createdAt <= t[s[j]].createdAt
  }

  function Min(a: nat, b: nat): nat { if a < b then a else b }

  /** LIMIT and OFFSET. */
  function Page(s: seq<Uuid>, limit: nat, offset: nat): seq<Uuid> {
    s[Min(offset, |s|)..Min(offset + limit, |s|)]
  }

  ghost predicate LegalPage(t: Table, rows: set<Uuid>, limit: nat, offset: nat, p: seq<Uuid>) {
    exists s :: Ordering(t, rows, s) && p == Page(s, limit, offset)
  }

  /** A client reads page after page until the first short one. */
  ghost predicate LegalWalk(t: Table, rows: set<Uuid>, limit: nat, pages: seq<seq<Uuid>>) {
    && pages != []
    && (forall i :: 0 <= i < |pages| ==> LegalPage(t, rows, limit, i * limit, pages[i]))
    && (forall i :: 0 <= i < |pages| - 1 ==> |pages[i]| == limit)
    && |pages[|pages| - 1]| < limit
  }

  function Concat(pages: seq<seq<Uuid>>): seq<Uuid> {
    if pages == [] then [] else Concat(pages[..|pages| - 1]) + pages[|pages| - 1]
  }

  /** No two rows with one created_at lie on either side of a page boundary. */
  ghost predicate NoTieAcrossPages(t: Table, s: seq<Uuid>, limit: nat)
    requires Elems(s) <= t.Keys
  {
    forall m: nat :: Clean(t, s, m * limit)
  }

  ghost predicate Clean(t: Table, s: seq<Uuid>, b: nat)
    requires Elems(s) <= t.Keys
  {
    0 < b < |s| ==> t[s[b - 1]].createdAt < t[s[b]].createdAt
  }

  lemma DistinctTimesSuffice(t: Table, rows: set<Uuid>, s: seq<Uuid>, limit: nat)
    requires Ordering(t, rows, s)
    requires forall x, y :: x in rows && y in rows && x != y ==> t[x].createdAt != t[y].createdAt
    ensures NoTieAcrossPages(t, s, limit)
  {
    forall m: nat ensures Clean(t, s, m * limit) {
      var b := m * limit;
      if 0 < b < |s| { assert s[b - 1] in Elems(s) && s[b] in Elems(s); }
    }
  }

  // ---- counting --------------------------------------------------------------------------

  lemma {:induction false} DistinctCount(s: seq<Uuid>)
    requires Distinct(s)
    ensures |Elems(s)| == |s|
  {
    if s != [] {
      var n := |s| - 1;
      DistinctCount(s[..n]);
      assert Elems(s) == Elems(s[..n]) + {s[n]};
    }
  }

  lemma SubsetCount(a: set<Uuid>, b: set<Uuid>)
    requires a <= b
    ensures |a| <= |b| && (|a| == |b| ==> a == b)
  {
    assert b == a + (b - a);
  }

  lemma OrderingLength(t: Table, rows: set<Uuid>, s: seq<Uuid>)
    requires Ordering(t, rows, s)
    ensures |s| == |rows|
  {
    DistinctCount(s);
  }

  /** Below a clean boundary lie exactly the rows created before the one above it. */
  lemma BelowCut(t: Table, rows: set<Uuid>, s: seq<Uuid>, b: nat, y: Uuid)
    requires Ordering(t, rows, s) && 0 < b < |s| && Clean(t, s, b) && y in rows
    ensures y in s[..b] <==> t[y].createdAt < t[s[b]].createdAt
  {
    assert y in Elems(s);
    var z :| 0 <= z < |s| && s[z] == y;
    if z < b {
      assert s[..b][z] == y;
      assert z < b - 1 ==> t[s[z]].createdAt <= t[s[b - 1]].createdAt;
    } else {
      assert b < z ==> t[s[b]].createdAt <= t[s[z]].createdAt;
    }
  }

  /** In any other ordering such a row lies below the boundary too. */
  lemma LowRowsFirst(t: Table, rows: set<Uuid>, s: seq<Uuid>, s': seq<Uuid>, b: nat, p: nat)
    requires Ordering(t, rows, s) && Ordering(t, rows, s') && 0 < b < |s| && Clean(t, s, b)
    requires p < |s'| && t[s'[p]].createdAt < t[s[b]].createdAt
    ensures p < b
  {
    var low := s'[..p + 1];
    forall y | y in Elems(low) ensures y in Elems(s[..b]) {
      var z :| 0 <= z <= p && low[z] == y;
      EarlierIsBelow(t, rows, s, s', b, p, z);
    }
    PrefixDistinct(s', p + 1);
    PrefixDistinct(s, b);
    SubsetCount(Elems(low), Elems(s[..b]));
  }

  lemma EarlierIsBelow(t: Table, rows: set<Uuid>, s: seq<Uuid>, s': seq<Uuid>, b: nat, p: nat, z: nat)
    requires Ordering(t, rows, s) && Ordering(t, rows, s') && 0 < b < |s| && Clean(t, s, b)
    requires z <= p < |s'| && t[s'[p]].createdAt < t[s[b]].createdAt
    ensures s'[z] in s[..b]
  {
    assert s'[z] in Elems(s');
    assert z < p ==> t[s'[z]].createdAt <= t[s'[p]].createdAt;
    BelowCut(t, rows, s, b, s'[z]);
  }

  lemma PrefixDistinct(s: seq<Uuid>, n: nat)
    requires Distinct(s) && n <= |s|
    ensures Distinct(s[..n]) && |Elems(s[..n])| == n
  {
    DistinctCount(s[..n]);
  }

  /** Up to a clean boundary all orderings hold the same rows. */
  lemma PrefixFixed(t: Table, rows: set<Uuid>, s: seq<Uuid>, s': seq<Uuid>, b: nat)
    requires Ordering(t, rows, s) && Ordering(t, rows, s') && b <= |s| && Clean(t, s, b)
    ensures |s'| == |s| && Elems(s[..b]) == Elems(s'[..b])
  {
    OrderingLength(t, rows, s);
    OrderingLength(t, rows, s');
    if b == |s| {
      assert s[..b] == s && s'[..b] == s';
    } else if b > 0 {
      forall x | x in s[..b] ensures x in s'[..b] {
        assert x in Elems(s) && x in Elems(s');
        var p :| 0 <= p < |s'| && s'[p] == x;
        BelowCut(t, rows, s, b, x);
        LowRowsFirst(t, rows, s, s', b, p);
        assert s'[..b][p] == x;
      }
      DistinctCount(s[..b]);
      DistinctCount(s'[..b]);
      SubsetCount(Elems(s[..b]), Elems(s'[..b]));
    }
  }

  // ---- clean boundaries make the walk complete ----------------------------------------------

  /** One page between clean boundaries holds the rows between them, each once. */
  lemma PageFixed(t: Table, rows: set<Uuid>, s: seq<Uuid>, s': seq<Uuid>, lo: nat, hi: nat)
    requires Ordering(t, rows, s) && Ordering(t, rows, s') && lo <= hi <= |s| && Clean(t, s, lo) && Clean(t, s, hi)
    ensures |s'| == |s| && Elems(s'[lo..hi]) == Elems(s[lo..hi])
  {
    PrefixFixed(t, rows, s, s', lo);
    PrefixFixed(t, rows, s, s', hi);
    MiddleElems(s, lo, hi);
    MiddleElems(s', lo, hi);
  }

  lemma MiddleElems(s: seq<Uuid>, lo: nat, hi: nat)
    requires Distinct(s) && lo <= hi <= |s|
    ensures Elems(s[lo..hi]) == Elems(s[..hi]) - Elems(s[..lo])
    ensures Elems(s[..hi]) == Elems(s[..lo]) + Elems(s[lo..hi])
  {
    assert s[..hi] == s[..lo] + s[lo..hi];
    forall x | x in s[lo..hi] ensures x !in s[..lo] {
      var i :| 0 <= i < hi - lo && s[lo..hi][i] == x;
      assert s[lo + i] == x;
    }
  }

  ghost predicate Sorted(t: Table, s: seq<Uuid>) {
    && Elems(s) <= t.Keys
    && forall i, j :: 0 <= i < j < |s| ==>
         s[i] in Elems(s) && s[j] in Elems(s) && t[s[i]].createdAt <= t[s[j]].createdAt
  }

  /** What has been read up to boundary b, when everything so far went well. */
  ghost predicate ReadUpTo(t: Table, s: seq<Uuid>, b: nat, read: seq<Uuid>)
    requires b <= |s|
  {
    |read| == b && Elems(read) == Elems(s[..b]) && Sorted(t, read)
  }

  lemma SortedConcat(t: Table, a: seq<Uuid>, b: seq<Uuid>)
    requires Sorted(t, a) && Sorted(t, b)
    requires forall x, y :: x in Elems(a) && y in Elems(b) ==> t[x].createdAt <= t[y].createdAt
    ensures Sorted(t, a + b)
  {
    assert Elems(a + b) == Elems(a) + Elems(b);
    var c := a + b;
    forall i, j | 0 <= i < j < |c|
      ensures c[i] in Elems(c) && c[j] in Elems(c) && t[c[i]].createdAt <= t[c[j]].createdAt {
      if i < |a| && j >= |a| { assert c[i] in Elems(a) && c[j] in Elems(b); }
    }
  }

  lemma EarlierBelowLater(t: Table, rows: set<Uuid>, s: seq<Uuid>, lo: nat, hi: nat, x: Uuid, y: Uuid)
    requires Ordering(t, rows, s) && lo <= hi <= |s| && x in s[..lo] && y in s[lo..hi]
    ensures x in rows && y in rows && t[x].createdAt <= t[y].createdAt
  {
    var i :| 0 <= i < lo && s[..lo][i] == x;
    var j :| 0 <= j < hi - lo && s[lo..hi][j] == y;
    assert s[i] == x && s[lo + j] == y && x in Elems(s) && y in Elems(s);
  }

  lemma ReadOneMore(t: Table, rows: set<Uuid>, s: seq<Uuid>, s': seq<Uuid>, lo: nat, hi: nat, read: seq<Uuid>)
    requires Ordering(t, rows, s) && Ordering(t, rows, s') && lo <= hi <= |s| && Clean(t, s, lo) && Clean(t, s, hi)
    requires ReadUpTo(t, s, lo, read)
    ensures |s'| == |s| && ReadUpTo(t, s, hi, read + s'[lo..hi])
  {
    PageFixed(t, rows, s, s', lo, hi);
    var page := s'[lo..hi];
    assert Elems(read + page) == Elems(read) + Elems(page);
    MiddleElems(s, lo, hi);
    SliceSorted(t, rows, s', lo, hi);
    forall x, y | x in Elems(read) && y in Elems(page) ensures t[x].createdAt <= t[y].createdAt {
      assert x in Elems(s[..lo]) && y in Elems(s[lo..hi]);
      EarlierBelowLater(t, rows, s, lo, hi, x, y);
    }
    SortedConcat(t, read, page);
  }

  lemma SliceSorted(t: Table, rows: set<Uuid>, s: seq<Uuid>, lo: nat, hi: nat)
    requires Ordering(t, rows, s) && lo <= hi <= |s|
    ensures Sorted(t, s[lo..hi])
  {
    assert forall x :: x in s[lo..hi] ==> x in Elems(s);
  }

  lemma Multiples(m: nat, limit: nat)
    requires m > 0
    ensures m * limit == (m - 1) * limit + limit
  {
  }

  /** Page m - 1 of the walk, whichever ordering it was cut from. */
  lemma PageRead(t: Table, rows: set<Uuid>, s: seq<Uuid>, limit: nat, page: seq<Uuid>, m: nat, read: seq<Uuid>)
    requires m > 0 && Ordering(t, rows, s) && NoTieAcrossPages(t, s, limit) &&
      LegalPage(t, rows, limit, (m - 1) * limit, page)
    requires ReadUpTo(t, s, Min((m - 1) * limit, |s|), read)
    ensures ReadUpTo(t, s, Min(m * limit, |s|), read + page)
  {
    Multiples(m, limit);
    var s' :| Ordering(t, rows, s') && page == Page(s', limit, (m - 1) * limit);
    var lo, hi := Min((m - 1) * limit, |s|), Min(m * limit, |s|);
    BoundaryClean(t, s, limit, m - 1);
    BoundaryClean(t, s, limit, m);
    ReadOneMore(t, rows, s, s', lo, hi, read);
    PageSlice(s', limit, (m - 1) * limit, m * limit);
  }

  /** A page boundary, or the end of the rows, is clean. */
  lemma BoundaryClean(t: Table, s: seq<Uuid>, limit: nat, m: nat)
    requires Elems(s) <= t.Keys && NoTieAcrossPages(t, s, limit)
    ensures Clean(t, s, Min(m * limit, |s|))
  {
    assert Clean(t, s, m * limit);
  }

  lemma PageSlice(s: seq<Uuid>, limit: nat, offset: nat, next: nat)
    requires next == offset + limit
    ensures Page(s, limit, offset) == s[Min(offset, |s|)..Min(next, |s|)]
  {
  }

  lemma {:induction false} WalkReads(t: Table, rows: set<Uuid>, s: seq<Uuid>, limit: nat, pages: seq<seq<Uuid>>, m: nat)
    requires Ordering(t, rows, s) && NoTieAcrossPages(t, s, limit) && LegalWalk(t, rows, limit, pages) && m <= |pages|
    ensures ReadUpTo(t, s, Min(m * limit, |s|), Concat(pages[..m]))
  {
    if m > 0 {
      WalkReads(t, rows, s, limit, pages, m - 1);
      assert pages[..m][..m - 1] == pages[..m - 1];
      PageRead(t, rows, s, limit, pages[m - 1], m, Concat(pages[..m - 1]));
    }
  }

  lemma {:induction false} CountDistinct(s: seq<Uuid>)
    requires |Elems(s)| == |s|
    ensures Distinct(s)
  {
    if s != [] {
      var n := |s| - 1;
      assert Elems(s) == Elems(s[..n]) + {s[n]};
      ElemsBound(s[..n]);
      CountDistinct(s[..n]);
      assert s[n] !in Elems(s[..n]);
      DistinctExtend(s[..n], s[n]);
      assert s == s[..n] + [s[n]];
    }
  }

  lemma DistinctExtend(s: seq<Uuid>, x: Uuid)
    requires Distinct(s) && x !in Elems(s)
    ensures Distinct(s + [x])
  {
    assert forall i :: 0 <= i < |s| ==> s[i] in Elems(s);
  }

  lemma {:induction false} ElemsBound(s: seq<Uuid>)
    ensures |Elems(s)| <= |s|
  {
    if s != [] {
      var n := |s| - 1;
      ElemsBound(s[..n]);
      assert Elems(s) == Elems(s[..n]) + {s[n]};
    }
  }

  lemma QuotientBounds(size: nat, limit: nat)
    requires limit > 0
    ensures size / limit * limit <= size < size / limit * limit + limit
  {
    assert size == size / limit * limit + size % limit;
  }

  lemma QuotientIs(size: nat, limit: nat, n: nat)
    requires limit > 0 && n * limit <= size < n * limit + limit
    ensures size / limit == n
  {
    var q := size / limit;
    QuotientBounds(size, limit);
    if q < n { Below(q, n, limit, size); }
    if n < q { Below(n, q, limit, size); }
  }

  /** Every row exactly once, in order, in floor(n / limit) + 1 pages. */
  lemma WalkComplete(t: Table, rows: set<Uuid>, s: seq<Uuid>, limit: nat, pages: seq<seq<Uuid>>)
    requires Ordering(t, rows, s) && NoTieAcrossPages(t, s, limit) && LegalWalk(t, rows, limit, pages)
    ensures Ordering(t, rows, Concat(pages)) && |pages| == |s| / limit + 1
  {
    PageCount(t, rows, s, limit, pages);
    ReadsAll(t, rows, s, limit, pages);
    ReadAllOrders(t, rows, s, Concat(pages));
  }

  lemma PageCount(t: Table, rows: set<Uuid>, s: seq<Uuid>, limit: nat, pages: seq<seq<Uuid>>)
    requires limit > 0 && Ordering(t, rows, s) && LegalWalk(t, rows, limit, pages)
    ensures |pages| == |s| / limit + 1
  {
    WalkStops(t, rows, s, limit, pages);
    QuotientIs(|s|, limit, |pages| - 1);
  }

  lemma ReadsAll(t: Table, rows: set<Uuid>, s: seq<Uuid>, limit: nat, pages: seq<seq<Uuid>>)
    requires Ordering(t, rows, s) && NoTieAcrossPages(t, s, limit) && LegalWalk(t, rows, limit, pages)
    ensures ReadUpTo(t, s, |s|, Concat(pages))
  {
    WalkStops(t, rows, s, limit, pages);
    WalkReads(t, rows, s, limit, pages, |pages|);
    Multiples(|pages|, limit);
    assert pages[..|pages|] == pages;
  }

  lemma ReadAllOrders(t: Table, rows: set<Uuid>, s: seq<Uuid>, read: seq<Uuid>)
    requires Ordering(t, rows, s) && ReadUpTo(t, s, |s|, read)
    ensures Ordering(t, rows, read)
  {
    assert s[..|s|] == s;
    OrderingLength(t, rows, s);
    CountDistinct(read);
  }

  /** The first short page is the one that reaches the end. */
  lemma WalkStops(t: Table, rows: set<Uuid>, s: seq<Uuid>, limit: nat, pages: seq<seq<Uuid>>)
    requires Ordering(t, rows, s) && LegalWalk(t, rows, limit, pages)
    ensures (|pages| - 1) * limit <= |s| < (|pages| - 1) * limit + limit
  {
    var last := |pages| - 1;
    WalkPage(t, rows, s, limit, pages, last);
    if last > 0 {
      Multiples(last, limit);
      WalkPage(t, rows, s, limit, pages, last - 1);
    }
  }

  lemma WalkPage(t: Table, rows: set<Uuid>, s: seq<Uuid>, limit: nat, pages: seq<seq<Uuid>>, i: nat)
    requires Ordering(t, rows, s) && LegalWalk(t, rows, limit, pages) && i < |pages|
    ensures |pages[i]| == Min(i * limit + limit, |s|) - Min(i * limit, |s|)
  {
    assert LegalPage(t, rows, limit, i * limit, pages[i]);
    var s' :| Ordering(t, rows, s') && pages[i] == Page(s', limit, i * limit);
    OrderingLength(t, rows, s);
    OrderingLength(t, rows, s');
  }

  // ---- a tie across a boundary can break the walk -------------------------------------------

  /** The rows on either side of a boundary exchanged; with equal created_at this is an ordering too. */
  function Swapped(s: seq<Uuid>, b: nat): seq<Uuid>
    requires 0 < b < |s|
  {
    s[b - 1 := s[b]][b := s[b - 1]]
  }

  lemma SwappedTime(t: Table, s: seq<Uuid>, b: nat, i: nat)
    requires Elems(s) <= t.Keys && 0 < b < |s| && i < |s|
    requires s[b] in Elems(s) && s[b - 1] in Elems(s) && t[s[b]].createdAt == t[s[b - 1]].createdAt
    ensures s[i] in t && Swapped(s, b)[i] in t && t[Swapped(s, b)[i]].createdAt == t[s[i]].createdAt
  {
    assert s[i] in Elems(s);
  }

  lemma SwapOrders(t: Table, rows: set<Uuid>, s: seq<Uuid>, b: nat)
    requires Ordering(t, rows, s) && 0 < b < |s| && !Clean(t, s, b)
    ensures Ordering(t, rows, Swapped(s, b))
  {
    var s' := Swapped(s, b);
    SwappedElems(s, b);
    assert s[b - 1] in Elems(s) && s[b] in Elems(s);
    forall i, j | 0 <= i < j < |s'| ensures s'[i] in t && s'[j] in t && t[s'[i]].createdAt <= t[s'[j]].createdAt {
      SwappedTime(t, s, b, i);
      SwappedTime(t, s, b, j);
    }
  }

  lemma SwappedElems(s: seq<Uuid>, b: nat)
    requires Distinct(s) && 0 < b < |s|
    ensures Distinct(Swapped(s, b)) && Elems(Swapped(s, b)) == Elems(s)
  {
    var s' := Swapped(s, b);
    forall x | x in Elems(s) ensures x in Elems(s') {
      var i :| 0 <= i < |s| && s[i] == x;
      assert s'[if i == b then b - 1 else if i == b - 1 then b else i] == x;
    }
  }

  /** The walk that meets the swapped ordering at page m only. */
  function Crossed(s: seq<Uuid>, limit: nat, m: nat, n: nat): (pages: seq<seq<Uuid>>)
    requires 0 < m * limit < |s|
    ensures |pages| == n
  {
    seq(n, i requires 0 <= i => Page(if i == m then Swapped(s, m * limit) else s, limit, i * limit))
  }

  lemma {:induction false} ConcatAt(pages: seq<seq<Uuid>>, limit: nat, i: nat, r: nat)
    requires forall x :: 0 <= x < |pages| - 1 ==> |pages[x]| == limit
    requires i < |pages| && r < |pages[i]|
    ensures |Concat(pages)| == (|pages| - 1) * limit + |pages[|pages| - 1]|
    ensures i * limit + r < |Concat(pages)| && Concat(pages)[i * limit + r] == pages[i][r]
  {
    var n := |pages| - 1;
    if n > 0 {
      var head := pages[..n];
      Multiples(n, limit);
      if i < n {
        ConcatAt(head, limit, i, r);
      } else if limit > 0 {
        ConcatAt(head, limit, n - 1, 0);
      } else {
        ConcatEmpty(head);
      }
    }
  }

  lemma {:induction false} ConcatEmpty(pages: seq<seq<Uuid>>)
    requires forall x :: 0 <= x < |pages| ==> |pages[x]| == 0
    ensures Concat(pages) == []
  {
    if pages != [] { ConcatEmpty(pages[..|pages| - 1]); }
  }

  lemma CrossedPage(s: seq<Uuid>, limit: nat, m: nat, n: nat, i: nat)
    requires 0 < m * limit < |s| && n * limit <= |s| < n * limit + limit && i <= n
    ensures |Crossed(s, limit, m, n + 1)[i]| == if i < n then limit else |s| - n * limit
  {
    if i < n { Below(i, n, limit, |s|); }
  }

  lemma CrossedIsLegal(t: Table, rows: set<Uuid>, s: seq<Uuid>, limit: nat, m: nat, n: nat)
    requires Ordering(t, rows, s) && 0 < m * limit < |s| && !Clean(t, s, m * limit)
    requires n * limit <= |s| < n * limit + limit
    ensures LegalWalk(t, rows, limit, Crossed(s, limit, m, n + 1))
  {
    var pages := Crossed(s, limit, m, n + 1);
    var b := m * limit;
    SwapOrders(t, rows, s, b);
    forall i | 0 <= i < |pages|
      ensures LegalPage(t, rows, limit, i * limit, pages[i])
      ensures |pages[i]| == if i < n then limit else |s| - n * limit
    {
      CrossedPage(s, limit, m, n, i);
      var o := if i == m then Swapped(s, b) else s;
      assert Ordering(t, rows, o) && pages[i] == Page(o, limit, i * limit);
    }
  }

  lemma CrossedRepeats(s: seq<Uuid>, limit: nat, m: nat, n: nat)
    requires 0 < m * limit < |s| && n * limit <= |s| < n * limit + limit
    ensures !Distinct(Concat(Crossed(s, limit, m, n + 1)))
  {
    var b := m * limit;
    var pages := Crossed(s, limit, m, n + 1);
    if m > n { Below(n, m, limit, b); }
    Multiples(m, limit);
    forall i | 0 <= i < |pages| ensures |pages[i]| == if i < n then limit else |s| - n * limit {
      CrossedPage(s, limit, m, n, i);
    }
    TwoAcross(pages, s, limit, m);
  }

  lemma TwoAcross(pages: seq<seq<Uuid>>, s: seq<Uuid>, limit: nat, m: nat)
    requires 0 < m < |pages| && limit > 0 && 0 < m * limit < |s|
    requires forall x :: 0 <= x < |pages| - 1 ==> |pages[x]| == limit
    requires pages[m - 1] == Page(s, limit, (m - 1) * limit) &&
      pages[m] == Page(Swapped(s, m * limit), limit, m * limit)
    ensures !Distinct(Concat(pages))
  {
    var b := m * limit;
    Multiples(m, limit);
    ConcatAt(pages, limit, m - 1, limit - 1);
    ConcatAt(pages, limit, m, 0);
    assert Concat(pages)[b - 1] == s[b - 1] == Concat(pages)[b];
  }

  lemma TieBreaksWalk(t: Table, rows: set<Uuid>, s: seq<Uuid>, limit: nat, m: nat) returns (pages: seq<seq<Uuid>>)
    requires limit > 0 && Ordering(t, rows, s) && !Clean(t, s, m * limit)
    ensures LegalWalk(t, rows, limit, pages) && !Distinct(Concat(pages))
  {
    var n := |s| / limit;
    QuotientBounds(|s|, limit);
    pages := Crossed(s, limit, m, n + 1);
    CrossedIsLegal(t, rows, s, limit, m, n);
    CrossedRepeats(s, limit, m, n);
  }

  lemma {:induction false} Below(i: nat, n: nat, limit: nat, size: nat)
    requires i < n && n * limit <= size
    ensures i * limit + limit <= n * limit <= size
    decreases n
  {
    Multiples(n, limit);
    if i < n - 1 { Below(i, n - 1, limit, (n - 1) * limit); }
  }

  /**
   * Whatever way ties fall, walking the pages returns every row exactly once and in order if and
   * only if no tie lies across a page boundary; distinct created_at values are one such case.
   */
  lemma WalkCompleteIff(t: Table, rows: set<Uuid>, s: seq<Uuid>, limit: nat)
    requires limit > 0 && Ordering(t, rows, s)
    ensures NoTieAcrossPages(t, s, limit) <==>
            forall pages :: LegalWalk(t, rows, limit, pages) ==> Ordering(t, rows, Concat(pages))
  {
    if NoTieAcrossPages(t, s, limit) {
      forall pages | LegalWalk(t, rows, limit, pages) ensures Ordering(t, rows, Concat(pages)) {
        WalkComplete(t, rows, s, limit, pages);
      }
    } else {
      var m: nat :| !Clean(t, s, m * limit);
      var pages := TieBreaksWalk(t, rows, s, limit, m);
    }
  }
}
