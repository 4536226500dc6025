/** Texts as Python's str methods see them: lines, joining, searching and replacing. */
module TextLines {
  import opened Domain

  // ---- lines ---------------------------------------------------------------------------------

  /** Line boundaries of str.splitlines; the newline translation of read_text leaves no carriage return. */
  predicate IsBreak(c: char) {
    || c == '\n' || c == '\U{0B}' || c == '\U{0C}' || ('\U{1C}' <= c <= '\U{1E}') || c == '\U{85}'
    || c == '\U{2028}' || c == '\U{2029}'
  }

  /** Python's whitespace. */
  predicate IsSpace(c: char) {
    || c == ' ' || ('\t' <= c <= '\r') || ('\U{1C}' <= c <= '\U{1F}') || c == '\U{85}' || c == '\U{A0}'
    || c == '\U{1680}' || ('\U{2000}' <= c <= '\U{200A}') || c == '\U{2028}' || c == '\U{2029}'
    || c == '\U{202F}' || c == '\U{205F}' || c == '\U{3000}'
  }

  /** By code point, as the Python library reference lists them. */
  lemma BlankCodes(c: char)
    ensures IsBreak(c) <==> c as int in {10, 11, 12, 28, 29, 30, 133, 8232, 8233}
    ensures IsSpace(c) <==> c as int in {9, 10, 11, 12, 13, 28, 29, 30, 31, 32, 133, 160, 5760, 8192, 8193, 8194, 8195,
                                         8196, 8197, 8198, 8199, 8200, 8201, 8202, 8232, 8233, 8239, 8287, 12288}
  {
  }

  predicate OneLine(l: string) {
    forall i :: 0 <= i < |l| ==> !IsBreak(l[i])
  }

  predicate AllOneLine(ls: seq<string>) {
    forall i :: 0 <= i < |ls| ==> OneLine(ls[i])
  }

  function FirstBreak(t: string): (n: nat)
    ensures n <= |t| && OneLine(t[..n]) && (n < |t| ==> IsBreak(t[n]))
  {
    if t == "" then 0 else if IsBreak(t[0]) then 0 else
      var n := FirstBreak(t[1..]);
      assert forall i :: 1 <= i < n + 1 ==> t[i] == t[1..][..n][i - 1];
      n + 1
  }

  /** str.splitlines. */
  function Split(t: string): (ls: seq<string>)
    ensures AllOneLine(ls)
    decreases |t|
  {
    if t == "" then []
    else
      var n := FirstBreak(t);
      [t[..n]] + if n == |t| then [] else Split(t[n + 1..])
  }

  /** Every line followed by a newline: "\n".join(lines) + "\n". */
  function Terminated(ls: seq<string>): string {
    if ls == [] then "" else ls[0] + "\n" + Terminated(ls[1..])
  }

  /** "\n".join(lines). */
  function Joined(ls: seq<string>): string {
    if ls == [] then "" else if |ls| == 1 then ls[0] else ls[0] + "\n" + Joined(ls[1..])
  }

  /** A newline is added only where there is none at the end. */
  function Ended(t: string): string {
    if t != "" && t[|t| - 1] == '\n' then t else t + "\n"
  }

  function Written(ls: seq<string>): string {
    Ended(Joined(ls))
  }

  /** Joining swallows one blank line at the end. */
  function Swallowed(ls: seq<string>): seq<string> {
    if |ls| >= 2 && ls[|ls| - 1] == "" then ls[..|ls| - 1] else ls
  }

  lemma {:induction false} FirstBreakIs(t: string, n: nat)
    requires n < |t| && IsBreak(t[n]) && forall i :: 0 <= i < n ==> !IsBreak(t[i])
    ensures FirstBreak(t) == n
  {
    if n > 0 { FirstBreakIs(t[1..], n - 1); }
  }

  lemma {:induction false} SplitTerminated(ls: seq<string>)
    requires AllOneLine(ls)
    ensures Split(Terminated(ls)) == ls
  {
    if ls != [] {
      var t := Terminated(ls);
      assert forall i :: 0 <= i < |ls[0]| ==> t[i] == ls[0][i];
      FirstBreakIs(t, |ls[0]|);
      assert t[..|ls[0]|] == ls[0] && t[|ls[0]| + 1..] == Terminated(ls[1..]);
      SplitTerminated(ls[1..]);
    }
  }

  /** Lines with what ends each of them. */
  function Interleaved(ls: seq<string>, ends: seq<string>): string
    requires |ls| == |ends|
  {
    if ls == [] then "" else ls[0] + ends[0] + Interleaved(ls[1..], ends[1..])
  }

  /** Splitting takes a text apart at exactly its line breaks; only the last line may be unterminated, if not empty. */
  lemma {:induction false} SplitTakesApart(t: string) returns (ends: seq<string>)
    ensures WellEnded(Split(t), ends) && Interleaved(Split(t), ends) == t
    decreases |t|
  {
    if t == "" { return []; }
    var n := FirstBreak(t);
    if n == |t| {
      ends := [""];
      SplitLast(t);
      InterleavedCons(t, "", [], []);
    } else {
      var rest := SplitTakesApart(t[n + 1..]);
      ends := [[t[n]]] + rest;
      SplitFirst(t);
      InterleavedCons(t[..n], [t[n]], Split(t[n + 1..]), rest);
      Rejoined(t, n);
      EndsCons(t[..n], t[n], Split(t[n + 1..]), rest);
    }
  }

  /** Each line ends in one line break, but the last need not, if it is not empty. */
  ghost predicate WellEnded(ls: seq<string>, ends: seq<string>) {
    && |ends| == |ls|
    && forall i :: 0 <= i < |ends| ==>
         (|ends[i]| == 1 && IsBreak(ends[i][0])) || (i == |ends| - 1 && ends[i] == "" && ls[i] != "")
  }

  lemma EndsCons(l: string, c: char, ls: seq<string>, ends: seq<string>)
    requires IsBreak(c) && WellEnded(ls, ends)
    ensures WellEnded([l] + ls, [[c]] + ends)
  {
  }

  lemma SplitLast(t: string)
    requires t != "" && FirstBreak(t) == |t|
    ensures Split(t) == [t]
  {
    assert t[..|t|] == t;
  }

  lemma SplitFirst(t: string)
    requires t != "" && FirstBreak(t) < |t|
    ensures var n := FirstBreak(t); Split(t) == [t[..n]] + Split(t[n + 1..])
  {
  }

  lemma Rejoined(t: string, n: nat)
    requires n < |t|
    ensures t[..n] + [t[n]] + t[n + 1..] == t
  {
  }

  lemma InterleavedCons(l: string, end: string, ls: seq<string>, ends: seq<string>)
    requires |ls| == |ends|
    ensures Interleaved([l] + ls, [end] + ends) == l + end + Interleaved(ls, ends)
  {
    assert ([l] + ls)[1..] == ls && ([end] + ends)[1..] == ends;
  }

  lemma {:induction false} TerminatedConcat(a: seq<string>, b: seq<string>)
    ensures Terminated(a + b) == Terminated(a) + Terminated(b)
  {
    if a == [] {
      assert a + b == b;
    } else {
      assert (a + b)[1..] == a[1..] + b;
      TerminatedConcat(a[1..], b);
    }
  }

  lemma TerminatedOne(l: string)
    ensures Terminated([l]) == l + "\n"
  {
    assert [l][1..] == [];
  }

  lemma TerminatedLast(ls: seq<string>)
    requires ls != []
    ensures Terminated(ls) == Terminated(ls[..|ls| - 1]) + ls[|ls| - 1] + "\n"
  {
    var n := |ls| - 1;
    assert ls == ls[..n] + [ls[n]];
    TerminatedConcat(ls[..n], [ls[n]]);
    TerminatedOne(ls[n]);
    Regroup(Terminated(ls[..n]), ls[n], "\n");
  }

  lemma Regroup(a: string, b: string, c: string)
    ensures a + (b + c) == a + b + c
  {
  }

  lemma SameLine(t: string, u: string)
    requires t + "\n" == u + "\n"
    ensures t == u
  {
    assert t == (t + "\n")[..|t|] == (u + "\n")[..|u|] == u;
  }

  lemma {:induction false} JoinedIs(ls: seq<string>)
    requires ls != []
    ensures Joined(ls) + "\n" == Terminated(ls)
  {
    if |ls| == 1 {
      assert Terminated(ls[1..]) == "";
    } else {
      JoinedIs(ls[1..]);
      assert ls[0] + "\n" + Joined(ls[1..]) + "\n" == ls[0] + "\n" + (Joined(ls[1..]) + "\n");
    }
  }

  lemma WrittenIs(ls: seq<string>)
    requires ls != [] && AllOneLine(ls)
    ensures Written(ls) == Terminated(Swallowed(ls)) && Split(Written(ls)) == Swallowed(ls)
  {
    var n := |ls| - 1;
    var t := Joined(ls);
    JoinedIs(ls);
    TerminatedLast(ls);
    SameLine(t, Terminated(ls[..n]) + ls[n]);
    if ls[n] == "" {
      if n > 0 {
        TerminatedLast(ls[..n]);
        assert t[|t| - 1] == '\n';
      }
    } else {
      assert t[|t| - 1] == ls[n][|ls[n]| - 1];
    }
    SplitTerminated(Swallowed(ls));
  }

  lemma {:induction false} JoinedConcat(a: seq<string>, b: seq<string>)
    requires a != [] && b != []
    ensures Joined(a + b) == Joined(a) + "\n" + Joined(b)
  {
    assert (a + b)[1..] == a[1..] + b;
    if |a| > 1 { JoinedConcat(a[1..], b); }
  }

  lemma JoinedLast(a: seq<string>, l: string, rest: string)
    ensures Joined(a + [l + rest]) == Joined(a + [l]) + rest
  {
    if a == [] {
      assert a + [l + rest] == [l + rest] && a + [l] == [l];
    } else {
      JoinedConcat(a, [l + rest]);
      JoinedConcat(a, [l]);
    }
  }

  // ---- searching and replacing ---------------------------------------------------------------

  predicate OccursAt(l: string, pat: string, q: nat) {
    q + |pat| <= |l| && l[q..q + |pat|] == pat
  }

  /** The first occurrence. */
  ghost predicate First(l: string, pat: string, p: nat) {
    OccursAt(l, pat, p) && forall q :: 0 <= q < p ==> !OccursAt(l, pat, q)
  }

  /** str.find. */
  function Find(l: string, pat: string): (r: Option<nat>)
    ensures r.Some? ==> First(l, pat, r.value)
    ensures r.None? ==> forall q: nat :: !OccursAt(l, pat, q)
  {
    FindFrom(l, pat, 0)
  }

  function FindFrom(l: string, pat: string, q: nat): (r: Option<nat>)
    ensures r.Some? ==> q <= r.value && OccursAt(l, pat, r.value) && forall x :: q <= x < r.value ==>
      !OccursAt(l, pat, x)
    ensures r.None? ==> forall x :: q <= x ==> !OccursAt(l, pat, x)
    decreases |l| - q
  {
    if q + |pat| > |l| then None else if OccursAt(l, pat, q) then Some(q) else FindFrom(l, pat, q + 1)
  }

  /** str.replace(pat, with, 1). */
  function ReplaceFirst(t: string, pat: string, with: string): string {
    match Find(t, pat) case None => t case Some(p) => Splice(t, p, |pat|, with)
  }

  function Splice(t: string, p: nat, n: nat, with: string): string
    requires p + n <= |t|
  {
    t[..p] + with + t[p + n..]
  }

  /** The part of a line up to and including the first occurrence, and what follows it. */
  function Through(l: string, pat: string): string
    requires Find(l, pat).Some?
  {
    l[..Find(l, pat).value + |pat|]
  }

  function Beyond(l: string, pat: string): string
    requires Find(l, pat).Some?
  {
    l[Find(l, pat).value + |pat|..]
  }

  lemma OccursInCut(l: string, pat: string, q: nat, n: nat)
    requires q + |pat| <= n <= |l|
    ensures OccursAt(l[..n], pat, q) <==> OccursAt(l, pat, q)
  {
    assert l[..n][q..q + |pat|] == l[q..q + |pat|];
  }

  lemma FindIff(l: string, pat: string, p: nat)
    ensures Find(l, pat) == Some(p) <==> First(l, pat, p)
  {
  }

  lemma NotInEmpty(pat: string)
    requires pat != ""
    ensures Find("", pat).None?
  {
  }

  lemma PrefixFinds(pat: string, rest: string)
    ensures Find(pat + rest, pat) == Some(0) && Beyond(pat + rest, pat) == rest
  {
    assert OccursAt(pat + rest, pat, 0);
  }

  lemma CutKeepsFirst(l: string, pat: string, p: nat)
    requires First(l, pat, p)
    ensures First(l[..p + |pat|], pat, p)
  {
    var h := l[..p + |pat|];
    OccursInCut(l, pat, p, |h|);
    forall q: nat | q < p ensures !OccursAt(h, pat, q) {
      OccursInCut(l, pat, q, |h|);
      assert !OccursAt(l, pat, q);
    }
  }

  lemma CutFinds(l: string, pat: string, p: nat)
    requires Find(l, pat) == Some(p)
    ensures Find(l[..p + |pat|], pat) == Some(p)
  {
    FindIff(l, pat, p);
    CutKeepsFirst(l, pat, p);
    FindIff(l[..p + |pat|], pat, p);
  }

  lemma CutIsAll(l: string, pat: string, p: nat)
    requires OccursAt(l, pat, p) && |l| == p + |pat|
    ensures l[..p + |pat|] == l && l[p + |pat|..] == ""
  {
  }

  lemma PartFinds(l: string, pat: string, p: nat, off: nat)
    requires OccursAt(l, pat, p) && off <= |pat|
    ensures Find(l, pat[off..]).Some?
  {
    assert l[p + off..p + |pat|] == l[p..p + |pat|][off..];
    assert OccursAt(l, pat[off..], p + off);
  }

  lemma ThroughFinds(l: string, pat: string)
    requires Find(l, pat).Some?
    ensures var h := Through(l, pat);
            Find(h, pat) == Find(l, pat) && Beyond(h, pat) == "" && Through(h, pat) == h && l == h + Beyond(l, pat)
  {
    var p := Find(l, pat).value;
    CutFinds(l, pat, p);
    CutIsAll(Through(l, pat), pat, p);
    Rejoin(l, p + |pat|);
  }

  lemma Rejoin(l: string, n: nat)
    requires n <= |l|
    ensures l == l[..n] + l[n..]
  {
  }

  /** A pattern without a line break lies before or after each line break. */
  lemma OccursBesideBreak(t: string, n: nat, pat: string, q: nat)
    requires n < |t| && IsBreak(t[n]) && OneLine(pat) && pat != ""
    ensures OccursAt(t, pat, q) <==> OccursAt(t[..n], pat, q) || (q > n && OccursAt(t[n + 1..], pat, q - n - 1))
  {
    if q + |pat| <= n {
      OccursInCut(t, pat, q, n);
    } else if q > n {
      if q + |pat| <= |t| { assert t[n + 1..][q - n - 1..q - n - 1 + |pat|] == t[q..q + |pat|]; }
    } else if q + |pat| <= |t| {
      assert t[q..q + |pat|][n - q] == t[n];
    }
  }

  lemma FirstBeforeBreak(t: string, n: nat, pat: string, p: nat)
    requires n < |t| && IsBreak(t[n]) && OneLine(pat) && pat != "" && First(t[..n], pat, p)
    ensures First(t, pat, p)
  {
    OccursBesideBreak(t, n, pat, p);
    forall q | 0 <= q < p ensures !OccursAt(t, pat, q) {
      OccursBesideBreak(t, n, pat, q);
      assert !OccursAt(t[..n], pat, q);
    }
  }

  lemma FirstAfterBreak(t: string, n: nat, pat: string, p: nat)
    requires n < |t| && IsBreak(t[n]) && OneLine(pat) && pat != "" && Find(t[..n], pat).None? &&
      First(t[n + 1..], pat, p)
    ensures First(t, pat, n + 1 + p)
  {
    OccursBesideBreak(t, n, pat, n + 1 + p);
    forall q | 0 <= q < n + 1 + p ensures !OccursAt(t, pat, q) {
      OccursBesideBreak(t, n, pat, q);
      assert q > n ==> !OccursAt(t[n + 1..], pat, q - n - 1);
    }
  }

  lemma NoneBesideBreak(t: string, n: nat, pat: string)
    requires n < |t| && IsBreak(t[n]) && OneLine(pat) && pat != "" && Find(t[..n], pat).None? &&
      Find(t[n + 1..], pat).None?
    ensures Find(t, pat).None?
  {
    if Find(t, pat).Some? { OccursBesideBreak(t, n, pat, Find(t, pat).value); }
  }

  /** Searching a text is searching what is before the break, then what is after it. */
  lemma FindBesideBreak(t: string, n: nat, pat: string)
    requires n < |t| && IsBreak(t[n]) && OneLine(pat) && pat != ""
    ensures Find(t, pat) == if Find(t[..n], pat).Some? then Find(t[..n], pat)
                            else match Find(t[n + 1..], pat) case None => None case Some(p) => Some(n + 1 + p)
  {
    if Find(t[..n], pat).Some? {
      FirstBeforeBreak(t, n, pat, Find(t[..n], pat).value);
      FindIff(t, pat, Find(t[..n], pat).value);
    } else if Find(t[n + 1..], pat).Some? {
      FirstAfterBreak(t, n, pat, Find(t[n + 1..], pat).value);
      FindIff(t, pat, n + 1 + Find(t[n + 1..], pat).value);
    } else {
      NoneBesideBreak(t, n, pat);
    }
  }

  lemma FindInJoin(a: string, b: string, pat: string)
    requires OneLine(pat) && pat != ""
    ensures Find(a + "\n" + b, pat) == if Find(a, pat).Some? then Find(a, pat)
                                       else match Find(b, pat) case None => None case Some(p) => Some(|a| + 1 + p)
  {
    var t := a + "\n" + b;
    assert t[..|a|] == a && t[|a| + 1..] == b;
    FindBesideBreak(t, |a|, pat);
  }

  /** Replacing in a text is replacing before the break if the pattern is there, else after it. */
  lemma ReplaceBefore(a: string, b: string, pat: string, with: string)
    requires OneLine(pat) && pat != "" && Find(a, pat).Some?
    ensures ReplaceFirst(a + "\n" + b, pat, with) == ReplaceFirst(a, pat, with) + "\n" + b
  {
    FindInJoin(a, b, pat);
    SpliceBefore(a, b, Find(a, pat).value, |pat|, with);
  }

  lemma ReplaceAfter(a: string, b: string, pat: string, with: string)
    requires OneLine(pat) && pat != "" && Find(a, pat).None?
    ensures ReplaceFirst(a + "\n" + b, pat, with) == a + "\n" + ReplaceFirst(b, pat, with)
  {
    if Find(b, pat).Some? { ReplaceAfterHit(a, b, pat, with); } else { FindInJoin(a, b, pat); }
  }

  lemma ReplaceAfterHit(a: string, b: string, pat: string, with: string)
    requires OneLine(pat) && pat != "" && Find(a, pat).None? && Find(b, pat).Some?
    ensures ReplaceFirst(a + "\n" + b, pat, with) == a + "\n" + ReplaceFirst(b, pat, with)
  {
    var p := Find(b, pat).value;
    FindInJoin(a, b, pat);
    ReplaceAt(a + "\n" + b, pat, with, |a| + 1 + p);
    ReplaceAt(b, pat, with, p);
    SpliceAfter(a, b, p, |pat|, with);
  }

  lemma ReplaceAt(t: string, pat: string, with: string, p: nat)
    requires Find(t, pat) == Some(p)
    ensures p + |pat| <= |t| && ReplaceFirst(t, pat, with) == Splice(t, p, |pat|, with)
  {
  }

  lemma SpliceBefore(a: string, b: string, p: nat, n: nat, with: string)
    requires p + n <= |a|
    ensures Splice(a + "\n" + b, p, n, with) == Splice(a, p, n, with) + "\n" + b
  {
    var t := a + "\n" + b;
    assert t[..p] == a[..p];
    assert t[p + n..] == a[p + n..] + "\n" + b;
  }

  lemma SpliceAfter(a: string, b: string, p: nat, n: nat, with: string)
    requires p + n <= |b|
    ensures Splice(a + "\n" + b, |a| + 1 + p, n, with) == a + "\n" + Splice(b, p, n, with)
  {
    var t := a + "\n" + b;
    assert t[..|a| + 1 + p] == a + "\n" + b[..p];
    assert t[|a| + 1 + p + n..] == b[p + n..];
  }

  lemma HeadEnds(l: string, pat: string)
    requires Find(l, pat).Some?
    ensures Through(l, pat) == l[..Find(l, pat).value] + pat
  {
  }

  lemma Reassembled(a: string, pat: string, f: string, rest: string)
    ensures a + (pat + "\n" + f) + rest == (a + pat) + "\n" + (f + rest)
  {
  }
}
