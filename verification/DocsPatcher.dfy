/**
 * scripts/patch-swagger-extensions.py on docs.go: the same strip, then a replacement in the joined
 * text, and exactly when doing it twice is doing it once.
 */
module DocsPatcher {
  import opened Domain
  import opened TextLines
  import opened Patcher

  // ---- what the script does ------------------------------------------------------------------

  const ANCHOR: string := "\"swagger\": \"2.0\","
  const PATTERN: string := "    " + ANCHOR

  /** Some line holds the anchor. */
  predicate HasAnchor(ls: seq<string>) {
    exists i :: 0 <= i < |ls| && Find(ls[i], ANCHOR).Some?
  }

  /** The first line that holds the pattern. */
  function PatternLine(ls: seq<string>): (r: Option<nat>)
    ensures r.Some? ==> r.value < |ls| && Find(ls[r.value], PATTERN).Some? && forall j :: 0 <= j < r.value ==>
      Find(ls[j], PATTERN).None?
    ensures r.None? ==> forall j :: 0 <= j < |ls| ==> Find(ls[j], PATTERN).None?
  {
    if ls == [] then None else
      var n := |ls| - 1;
      var r := PatternLine(ls[..n]);
      assert forall j :: 0 <= j < n ==> ls[..n][j] == ls[j];
      if r.Some? then r else if Find(ls[n], PATTERN).Some? then Some(n) else None
  }

  /** json.dumps of the tags with indent 4, indented once more, without its closing line. */
  function FragmentBody(tags: seq<Tag>): seq<string> {
    if tags == [] then []
    else
      TagLines(tags[0], |tags| == 1) + FragmentBody(tags[1..])
  }

  function TagLines(t: Tag, last: bool): seq<string> {
    ["        {", NameLine(t), DescriptionLine(t), if last then "        }" else "        },"]
  }

  function NameLine(t: Tag): string { "            \"name\": " + t.name + "," }

  function DescriptionLine(t: Tag): string { "            \"description\": " + t.description }

  function FragmentFront(tags: seq<Tag>): seq<string> {
    ["    \"tags\": ["] + FragmentBody(tags)
  }

  const CLOSING: string := "    ],"

  function Head(l: string): string
    requires Find(l, PATTERN).Some?
  {
    Through(l, PATTERN)
  }

  function Rest(l: string): string
    requires Find(l, PATTERN).Some?
  {
    Beyond(l, PATTERN)
  }

  /** The lines before, at and after the pattern, with the block between them. */
  function Around(a: seq<string>, h: string, block: seq<string>, b: seq<string>): seq<string> {
    a + [h] + block + b
  }

  /** The lines a first patch leaves when `rest` follows the pattern at the end of `h`. */
  function Once(a: seq<string>, h: string, tags: seq<Tag>, rest: string, b: seq<string>): seq<string> {
    Around(a, h, FragmentFront(tags) + [CLOSING + rest], b)
  }

  /** The fragment put after the first pattern, line by line. */
  function InsertFragment(ls: seq<string>, tags: seq<Tag>): seq<string> {
    match PatternLine(ls)
    case None => ls
    case Some(i) => Once(ls[..i], Head(ls[i]), tags, Rest(ls[i]), ls[i + 1..])
  }

  /** The block that is inserted, as one text. */
  function Fragment(tags: seq<Tag>): string {
    Joined(FragmentFront(tags) + [CLOSING])
  }

  /** patch_docs_go on the whole text, for a list of tags that is not empty. */
  function PatchDocs(text: string, tags: seq<Tag>): string {
    if Find(text, ANCHOR).None? then text
    else Ended(ReplaceFirst(Joined(Scan(Docs, false, Split(text)).kept), PATTERN, PATTERN + "\n" + Fragment(tags)))
  }

  /** The same line by line, which is what can be reasoned about. */
  function PatchDocsByLine(text: string, tags: seq<Tag>): string {
    if !HasAnchor(Split(text)) then text
    else Written(InsertFragment(Scan(Docs, false, Split(text)).kept, tags))
  }

  /** patch_docs_go: searching and replacing in the text has the effect of working on its lines. */
  method RewriteDocs(text: string, tags: seq<Tag>) returns (out: string)
    ensures out == PatchDocsByLine(text, tags)
  {
    DocsByLine(text, tags);
    if Find(text, ANCHOR).None? { return text; }
    var cleaned := StripLoop(Docs, Split(text));
    out := ReplaceFirst(Joined(cleaned), PATTERN, PATTERN + "\n" + Fragment(tags));
    if out == "" || out[|out| - 1] != '\n' { out := out + "\n"; }
  }

  // ---- the text and its lines -----------------------------------------------------------------

  /** A text contains the anchor exactly when one of its lines does. */
  lemma {:induction false} AnchorInLines(t: string)
    ensures HasAnchor(Split(t)) <==> Find(t, ANCHOR).Some?
    decreases |t|
  {
    AnchorIsOneLine();
    if t == "" {
      NotInEmpty(ANCHOR);
    } else {
      var n := FirstBreak(t);
      if n == |t| {
        assert t[..n] == t;
        AnchorInCons(t, []);
      } else {
        AnchorInLines(t[n + 1..]);
        AnchorInCons(t[..n], Split(t[n + 1..]));
        FindBesideBreak(t, n, ANCHOR);
      }
    }
  }

  lemma AnchorIsOneLine()
    ensures OneLine(ANCHOR) && OneLine(PATTERN) && ANCHOR != "" && PATTERN != ""
  {
  }

  lemma AnchorInCons(l: string, ls: seq<string>)
    ensures HasAnchor([l] + ls) <==> Find(l, ANCHOR).Some? || HasAnchor(ls)
  {
    if HasAnchor(ls) {
      var i :| 0 <= i < |ls| && Find(ls[i], ANCHOR).Some?;
      assert ([l] + ls)[i + 1] == ls[i];
    }
    if Find(l, ANCHOR).Some? { assert ([l] + ls)[0] == l; }
  }

  /** The line that holds the pattern, with the block after it: the replacement in that line. */
  lemma BlockIsReplacement(l: string, tags: seq<Tag>)
    requires Find(l, PATTERN).Some?
    ensures Joined([Head(l)] + (FragmentFront(tags) + [CLOSING + Rest(l)])) ==
      ReplaceFirst(l, PATTERN, PATTERN + "\n" + Fragment(tags))
  {
    var front := FragmentFront(tags);
    var p := Find(l, PATTERN).value;
    JoinedConcat([Head(l)], front + [CLOSING + Rest(l)]);
    JoinedLast(front, CLOSING, Rest(l));
    HeadEnds(l, PATTERN);
    Reassembled(l[..p], PATTERN, Fragment(tags), Rest(l));
  }

  lemma PatternLineCons(l: string, ls: seq<string>)
    ensures PatternLine([l] + ls) == if Find(l, PATTERN).Some? then Some(0)
                                     else match PatternLine(ls) case None => None case Some(i) => Some(i + 1)
  {
    var all := [l] + ls;
    assert all[0] == l && forall i :: 1 <= i < |all| ==> all[i] == ls[i - 1];
    if Find(l, PATTERN).None? &&
        PatternLine(ls).Some? { assert all[PatternLine(ls).value + 1] == ls[PatternLine(ls).value]; }
  }

  lemma InsertCons(l: string, ls: seq<string>, tags: seq<Tag>)
    ensures InsertFragment([l] + ls, tags) ==
            if Find(l, PATTERN).Some? then [Head(l)] + (FragmentFront(tags) + [CLOSING + Rest(l)]) + ls
            else [l] + InsertFragment(ls, tags)
  {
    var all := [l] + ls;
    PatternLineCons(l, ls);
    if Find(l, PATTERN).Some? {
      assert all[..0] == [] && all[1..] == ls && [] + [Head(l)] == [Head(l)];
    } else if PatternLine(ls).Some? {
      var i := PatternLine(ls).value;
      assert all[..i + 1] == [l] + ls[..i] && all[i + 2..] == ls[i + 1..] && all[i + 1] == ls[i];
      AroundCons(l, ls[..i], Head(ls[i]), FragmentFront(tags) + [CLOSING + Rest(ls[i])], ls[i + 1..]);
    }
  }

  lemma AroundCons(l: string, a: seq<string>, h: string, block: seq<string>, b: seq<string>)
    ensures Around([l] + a, h, block, b) == [l] + Around(a, h, block, b)
  {
  }

  /** Inserting the lines of the fragment is replacing the first pattern in the joined text. */
  lemma {:induction false} InsertIsReplace(ls: seq<string>, tags: seq<Tag>)
    requires ls != []
    ensures InsertFragment(ls, tags) != []
    ensures Joined(InsertFragment(ls, tags)) == ReplaceFirst(Joined(ls), PATTERN, PATTERN + "\n" + Fragment(tags))
  {
    var l, rest := ls[0], ls[1..];
    var block := if Find(l, PATTERN).Some? then [Head(l)] + (FragmentFront(tags) + [CLOSING + Rest(l)]) else [];
    assert ls == [l] + rest;
    AnchorIsOneLine();
    InsertCons(l, rest, tags);
    if Find(l, PATTERN).Some? { BlockIsReplacement(l, tags); }
    if rest == [] {
      assert block + [] == block && InsertFragment([], tags) == [] && [l] + [] == [l];
    } else {
      if Find(l, PATTERN).Some? {
        ReplaceBefore(l, Joined(rest), PATTERN, PATTERN + "\n" + Fragment(tags));
        JoinedConcat(block, rest);
      } else {
        ReplaceAfter(l, Joined(rest), PATTERN, PATTERN + "\n" + Fragment(tags));
        InsertIsReplace(rest, tags);
        JoinedConcat([l], InsertFragment(rest, tags));
      }
    }
  }

  /** The script's own operations on the text do what the line-by-line form says. */
  lemma DocsByLine(text: string, tags: seq<Tag>)
    ensures PatchDocs(text, tags) == PatchDocsByLine(text, tags)
  {
    var cleaned := Scan(Docs, false, Split(text)).kept;
    AnchorInLines(text);
    if cleaned == [] {
      AnchorIsOneLine();
      NotInEmpty(PATTERN);
    } else {
      InsertIsReplace(cleaned, tags);
    }
  }

  lemma HeadFinds(l: string)
    requires Find(l, PATTERN).Some?
    ensures Find(Head(l), PATTERN) == Find(l, PATTERN) && Rest(Head(l)) == "" && Head(Head(l)) == Head(l)
    ensures Find(Head(l), ANCHOR).Some? && Head(l) != ""
    ensures l == Head(l) + Rest(l)
  {
    ThroughFinds(l, PATTERN);
    PatternHoldsAnchor(Head(l), Find(Head(l), PATTERN).value);
  }

  lemma PatternHoldsAnchor(l: string, p: nat)
    requires OccursAt(l, PATTERN, p)
    ensures Find(l, ANCHOR).Some? && l != ""
  {
    assert PATTERN[4..] == ANCHOR;
    PartFinds(l, PATTERN, p, 4);
  }

  // ---- the fragment under the strip loop -----------------------------------------------------

  lemma {:induction false} TrimHead(s: string, k: nat)
    requires k < |s| && !IsSpace(s[k]) && forall i :: 0 <= i < k ==> IsSpace(s[i])
    ensures TrimLeft(s) == s[k..]
  {
    if k > 0 { TrimHead(s[1..], k - 1); }
  }

  lemma {:induction false} TrimTail(s: string)
    requires s != "" && !IsSpace(s[0])
    ensures TrimRight(s) != "" && TrimRight(s)[0] == s[0] && |TrimRight(s)| <= |s|
  {
    if IsSpace(s[|s| - 1]) { TrimTail(s[..|s| - 1]); }
  }

  lemma BodyLineInside(l: string, k: nat)
    requires 8 <= k < |l| && !IsSpace(l[k]) && l[k] != ']' && forall i :: 0 <= i < k ==> l[i] == ' '
    ensures StaysInside(l)
  {
    TrimHead(l, k);
    TrimTail(l[k..]);
    assert l[4] == ' ' && l[..8] == "        ";
  }

  predicate StaysInside(l: string) { Step(Docs, true, l) == After(true, false) }

  lemma FourInside(a: string, b: string, c: string, d: string)
    requires StaysInside(a) && StaysInside(b) && StaysInside(c) && StaysInside(d)
    ensures Scan(Docs, true, [a, b, c, d]) == Scanned(true, [])
  {
    assert [a, b, c, d][..3] == [a, b, c] && [a, b, c][..2] == [a, b] && [a, b][..1] == [a] && [a][..0] == [];
    assert Scan(Docs, true, [a]) == Scanned(true, []);
    assert Scan(Docs, true, [a, b]) == Scanned(true, []);
    assert Scan(Docs, true, [a, b, c]) == Scanned(true, []);
  }

  lemma NameInside(t: Tag)
    ensures StaysInside(NameLine(t))
  {
    BodyLineInside(NameLine(t), 12);
  }

  lemma DescriptionInside(t: Tag)
    ensures StaysInside(DescriptionLine(t))
  {
    BodyLineInside(DescriptionLine(t), 12);
  }

  lemma BracesInside()
    ensures StaysInside("        {") && StaysInside("        }") && StaysInside("        },")
  {
    BodyLineInside("        {", 8);
    BodyLineInside("        }", 8);
    BodyLineInside("        },", 8);
  }

  lemma TagLinesInside(t: Tag, last: bool)
    ensures Scan(Docs, true, TagLines(t, last)) == Scanned(true, [])
  {
    NameInside(t);
    DescriptionInside(t);
    BracesInside();
    FourInside("        {", NameLine(t), DescriptionLine(t), if last then "        }" else "        },");
  }

  lemma {:induction false} BodyInside(tags: seq<Tag>)
    ensures Scan(Docs, true, FragmentBody(tags)) == Scanned(true, [])
  {
    if tags != [] {
      var first := TagLines(tags[0], |tags| == 1);
      TagLinesInside(tags[0], |tags| == 1);
      BodyInside(tags[1..]);
      ScanConcat(Docs, true, first, FragmentBody(tags[1..]));
    }
  }

  lemma FrontInside(tags: seq<Tag>)
    ensures Scan(Docs, false, FragmentFront(tags)) == Scanned(true, [])
  {
    assert Scan(Docs, false, ["    \"tags\": ["]) == Scanned(true, []);
    BodyInside(tags);
    ScanConcat(Docs, false, ["    \"tags\": ["], FragmentBody(tags));
  }

  /** The closing line ends the block; it is dropped unless something other than blanks follows it. */
  lemma ClosingLine(rest: string)
    ensures Step(Docs, true, CLOSING + rest).inside == false
    ensures rest == "" ==> Step(Docs, true, CLOSING + rest).keep == false
  {
    var l := CLOSING + rest;
    assert l[4] == ']' && l[0] == ' ';
    TrimHead(l, 4);
    assert l[4..] == "]," + rest;
    TrimTail("]," + rest);
    if rest == "" { assert "]," + rest == "],"; }
  }

  // ---- patching twice --------------------------------------------------------------------------

  predicate TwoBlanks(ls: seq<string>) {
    |ls| >= 2 && ls[|ls| - 1] == "" && ls[|ls| - 2] == ""
  }

  predicate EndsInTwoBlanks(ls: seq<string>) {
    |ls| >= 3 && TwoBlanks(ls)
  }

  /**
   * The condition, on the stripped lines: nothing follows the first pattern on its line, and a
   * text that still has the anchor does not end in two blank lines.
   */
  predicate Settles(cleaned: seq<string>) {
    && (PatternLine(cleaned).Some? ==> Rest(cleaned[PatternLine(cleaned).value]) == "")
    && !(HasAnchor(cleaned) && EndsInTwoBlanks(cleaned))
  }

  predicate Clean(ls: seq<string>) {
    forall l :: l in ls ==> !Opens(Docs, l)
  }

  lemma SwallowTwice(ls: seq<string>)
    ensures Swallowed(Swallowed(ls)) == Swallowed(ls) <==> !EndsInTwoBlanks(ls)
  {
  }

  function LessBlank(b: seq<string>): seq<string> {
    if b != [] && b[|b| - 1] == "" then b[..|b| - 1] else b
  }

  lemma SwallowAround(a: seq<string>, h: string, block: seq<string>, b: seq<string>)
    requires h != "" && (block != [] ==> block[|block| - 1] != "")
    ensures Swallowed(Around(a, h, block, b)) == Around(a, h, block, LessBlank(b))
  {
    var x := a + [h] + block;
    assert x[|x| - 1] != "";
    if b != [] && b[|b| - 1] == "" {
      assert (x + b)[..|x + b| - 1] == x + b[..|b| - 1];
    }
  }

  /** The closing line a second strip lets through. */
  function Leftover(rest: string): seq<string> {
    if Step(Docs, true, CLOSING + rest).keep then [CLOSING + rest] else []
  }

  lemma FragmentLeaves(tags: seq<Tag>, rest: string)
    ensures Scan(Docs, false, FragmentFront(tags) + [CLOSING + rest]) == Scanned(false, Leftover(rest))
  {
    var l := CLOSING + rest;
    FrontInside(tags);
    ClosingLine(rest);
    OneStep(true, l);
    ScanConcat(Docs, false, FragmentFront(tags), [l]);
  }

  lemma OneStep(inside: bool, l: string)
    ensures Scan(Docs, inside, [l]) ==
      Scanned(Step(Docs, inside, l).inside, if Step(Docs, inside, l).keep then [l] else [])
  {
    assert [l][..0] == [];
  }

  /** The second strip drops the front of the fragment, and the closing line if nothing follows it. */
  lemma SecondStrip(a: seq<string>, h: string, tags: seq<Tag>, rest: string, b: seq<string>)
    requires Clean(a + [h]) && Clean(b)
    ensures Scan(Docs, false, Once(a, h, tags, rest, b)).kept == a + [h] + (Leftover(rest) + b)
  {
    FragmentLeaves(tags, rest);
    ScanClean(Docs, b);
    BlockLeaves(Docs, a + [h], FragmentFront(tags) + [CLOSING + rest], Leftover(rest), b, false);
    Reassociate(a + [h], Leftover(rest), b);
  }

  lemma Reassociate(a: seq<string>, x: seq<string>, b: seq<string>)
    ensures a + x + b == a + (x + b)
  {
  }

  lemma PatternAfter(a: seq<string>, h: string, y: seq<string>)
    requires forall j :: 0 <= j < |a| ==> Find(a[j], PATTERN).None?
    requires Find(h, PATTERN).Some?
    ensures PatternLine(a + [h] + y) == Some(|a|)
  {
    var ls := a + [h] + y;
    assert ls[|a|] == h && forall j :: 0 <= j < |a| ==> ls[j] == a[j];
  }

  lemma InsertAgain(a: seq<string>, h: string, y: seq<string>, tags: seq<Tag>)
    requires forall j :: 0 <= j < |a| ==> Find(a[j], PATTERN).None?
    requires Find(h, PATTERN).Some? && Head(h) == h && Rest(h) == ""
    ensures InsertFragment(a + [h] + y, tags) == Once(a, h, tags, "", y)
  {
    var ls := a + [h] + y;
    PatternAfter(a, h, y);
    assert ls[|a|] == h && ls[..|a|] == a && ls[|a| + 1..] == y;
  }

  predicate TagsOneLine(tags: seq<Tag>) {
    forall t :: t in tags ==> OneLine(t.name) && OneLine(t.description)
  }

  lemma NameOneLine(t: Tag)
    requires OneLine(t.name)
    ensures OneLine(NameLine(t))
  {
    assert OneLine("            \"name\": ") && OneLine(",");
  }

  lemma DescriptionOneLine(t: Tag)
    requires OneLine(t.description)
    ensures OneLine(DescriptionLine(t))
  {
    assert OneLine("            \"description\": ");
  }

  lemma TagLinesOneLine(t: Tag, last: bool)
    requires OneLine(t.name) && OneLine(t.description)
    ensures AllOneLine(TagLines(t, last))
  {
    NameOneLine(t);
    DescriptionOneLine(t);
    assert OneLine("        {") && OneLine("        }") && OneLine("        },");
  }

  lemma {:induction false} BodyOneLine(tags: seq<Tag>)
    requires TagsOneLine(tags)
    ensures AllOneLine(FragmentBody(tags))
  {
    if tags != [] {
      assert tags[0] in tags && forall t :: t in tags[1..] ==> t in tags;
      TagLinesOneLine(tags[0], |tags| == 1);
      BodyOneLine(tags[1..]);
    }
  }

  lemma BlockOneLine(tags: seq<Tag>, rest: string)
    requires TagsOneLine(tags) && OneLine(rest)
    ensures AllOneLine(FragmentFront(tags) + [CLOSING + rest])
  {
    BodyOneLine(tags);
    assert OneLine("    \"tags\": [");
    assert OneLine(CLOSING);
    assert OneLine(CLOSING + rest);
  }

  lemma OnceOneLine(a: seq<string>, h: string, tags: seq<Tag>, rest: string, b: seq<string>)
    requires AllOneLine(a) && OneLine(h) && TagsOneLine(tags) && OneLine(rest) && AllOneLine(b)
    ensures AllOneLine(Once(a, h, tags, rest, b))
  {
    BlockOneLine(tags, rest);
    AroundOneLine(a, h, FragmentFront(tags) + [CLOSING + rest], b);
  }

  lemma AroundOneLine(a: seq<string>, h: string, block: seq<string>, b: seq<string>)
    requires AllOneLine(a) && OneLine(h) && AllOneLine(block) && AllOneLine(b)
    ensures AllOneLine(Around(a, h, block, b))
  {
  }

  lemma InsertedOneLine(ls: seq<string>, tags: seq<Tag>)
    requires AllOneLine(ls) && TagsOneLine(tags)
    ensures AllOneLine(InsertFragment(ls, tags))
  {
    match PatternLine(ls)
    case None =>
    case Some(i) => OnceOneLine(ls[..i], Head(ls[i]), tags, Rest(ls[i]), ls[i + 1..]);
  }

  lemma SwallowOnce(a: seq<string>, h: string, tags: seq<Tag>, rest: string, b: seq<string>)
    requires h != ""
    ensures Swallowed(Once(a, h, tags, rest, b)) == Once(a, h, tags, rest, LessBlank(b))
  {
    var block := FragmentFront(tags) + [CLOSING + rest];
    assert |CLOSING + rest| > 0;
    SwallowAround(a, h, block, b);
  }

  lemma SecondPatchLines(a: seq<string>, h: string, tags: seq<Tag>, rest: string, b: seq<string>)
    requires Clean(a + [h]) && Clean(b) && forall j :: 0 <= j < |a| ==> Find(a[j], PATTERN).None?
    requires Find(h, PATTERN).Some? && Head(h) == h && Rest(h) == ""
    ensures InsertFragment(Scan(Docs, false, Once(a, h, tags, rest, b)).kept, tags) ==
      Once(a, h, tags, "", Leftover(rest) + b)
  {
    SecondStrip(a, h, tags, rest, b);
    InsertAgain(a, h, Leftover(rest) + b, tags);
  }

  lemma AnchorSurvivesSwallow(ls: seq<string>)
    ensures HasAnchor(Swallowed(ls)) <==> HasAnchor(ls)
  {
    if HasAnchor(ls) {
      var i :| 0 <= i < |ls| && Find(ls[i], ANCHOR).Some?;
      NotInEmpty(ANCHOR);
      assert Swallowed(ls)[i] == ls[i];
    }
  }

  /** Writing lines and reading them back, a second patch changes nothing exactly when its own lines do not change. */
  lemma SecondPatchText(p: seq<string>, q: seq<string>, tags: seq<Tag>)
    requires p != [] && AllOneLine(p) && TagsOneLine(tags) && HasAnchor(Swallowed(p))
    requires q == InsertFragment(Scan(Docs, false, Swallowed(p)).kept, tags) && q != [] && AllOneLine(q)
    ensures PatchDocsByLine(Written(p), tags) == Written(p) <==> Swallowed(q) == Swallowed(p)
  {
    WrittenIs(p);
    WrittenIs(q);
  }

  lemma KeptOneLine(m: Mode, ls: seq<string>)
    requires AllOneLine(ls)
    ensures AllOneLine(Scan(m, false, ls).kept)
  {
    var kept := Scan(m, false, ls).kept;
    KeptOpensNothing(m, false, ls);
    forall i | 0 <= i < |kept| ensures OneLine(kept[i]) { assert kept[i] in kept && kept[i] in ls; }
  }

  /** Without a pattern a second patch that still sees the anchor only swallows a blank line. */
  lemma AnchorOnlyCase(cleaned: seq<string>, tags: seq<Tag>)
    requires Clean(cleaned) && AllOneLine(cleaned) && TagsOneLine(tags) && PatternLine(cleaned).None? &&
      HasAnchor(cleaned)
    ensures PatchDocsByLine(Written(cleaned), tags) == Written(cleaned) <==> !EndsInTwoBlanks(cleaned)
  {
    var d := Swallowed(cleaned);
    AnchorSurvivesSwallow(cleaned);
    assert forall j :: 0 <= j < |d| ==> d[j] == cleaned[j];
    assert forall l :: l in d ==> l in cleaned;
    ScanClean(Docs, d);
    assert InsertFragment(d, tags) == d;
    SecondPatchText(cleaned, d, tags);
    SwallowTwice(cleaned);
  }

  lemma NothingCase(cleaned: seq<string>, tags: seq<Tag>)
    requires AllOneLine(cleaned) && !HasAnchor(cleaned)
    ensures PatchDocsByLine(Written(cleaned), tags) == Written(cleaned)
  {
    if cleaned == [] {
      assert Terminated([""]) == "\n" && OneLine("");
      SplitTerminated([""]);
    } else {
      WrittenIs(cleaned);
      AnchorSurvivesSwallow(cleaned);
    }
  }

  /** What stands at the closing line tells the two patches apart when something follows the pattern. */
  lemma OnceDiffers(a: seq<string>, h: string, tags: seq<Tag>, rest: string, b: seq<string>, c: seq<string>)
    requires rest != ""
    ensures Swallowed(Once(a, h, tags, "", c)) != Once(a, h, tags, rest, b)
  {
    var at := |a| + 1 + |FragmentFront(tags)|;
    var d, q := Once(a, h, tags, rest, b), Once(a, h, tags, "", c);
    assert d[at] == CLOSING + rest;
    assert q[at] == CLOSING + "" == CLOSING;
    assert |CLOSING + rest| != |CLOSING|;
    assert at < |Swallowed(q)| ==> Swallowed(q)[at] == CLOSING;
  }

  lemma OnceHolds(a: seq<string>, h: string, tags: seq<Tag>, rest: string, b: seq<string>)
    ensures |Once(a, h, tags, rest, b)| > |a| && Once(a, h, tags, rest, b)[|a|] == h
  {
  }

  /** What a second patch reads is `d`, the lines the first one wrote, and it goes on to write `q`. */
  lemma SecondPatchOf(a: seq<string>, h: string, tags: seq<Tag>, rest: string, p: seq<string>, b: seq<string>)
    requires Clean(a + [h]) && Clean(b) && forall j :: 0 <= j < |a| ==> Find(a[j], PATTERN).None?
    requires Find(h, PATTERN).Some? && Head(h) == h && Rest(h) == "" && Find(h, ANCHOR).Some?
    requires TagsOneLine(tags) && AllOneLine(p) && p != [] && Swallowed(p) == Once(a, h, tags, rest, b)
    ensures PatchDocsByLine(Written(p), tags) == Written(p) <==>
            Swallowed(Once(a, h, tags, "", Leftover(rest) + b)) == Swallowed(p)
  {
    var d, q := Swallowed(p), Once(a, h, tags, "", Leftover(rest) + b);
    SecondPatchLines(a, h, tags, rest, b);
    KeptOneLine(Docs, d);
    InsertedOneLine(Scan(Docs, false, d).kept, tags);
    OnceHolds(a, h, tags, rest, b);
    OnceHolds(a, h, tags, "", Leftover(rest) + b);
    assert HasAnchor(d);
    SecondPatchText(p, q, tags);
  }

  /** The second patch of the lines a first one left, the pattern being at the end of `h`. */
  lemma SecondPatch(a: seq<string>, h: string, tags: seq<Tag>, rest: string, b: seq<string>)
    requires Clean(a + [h]) && Clean(b) && forall j :: 0 <= j < |a| ==> Find(a[j], PATTERN).None?
    requires Find(h, PATTERN).Some? && Head(h) == h && Rest(h) == "" && Find(h, ANCHOR).Some?
    requires TagsOneLine(tags) && AllOneLine(Once(a, h, tags, rest, b))
    ensures PatchDocsByLine(Written(Once(a, h, tags, rest, b)), tags) == Written(Once(a, h, tags, rest, b)) <==>
            rest == "" && !EndsInTwoBlanks(Once(a, h, tags, rest, b))
  {
    var p, b' := Once(a, h, tags, rest, b), LessBlank(b);
    OnceHolds(a, h, tags, rest, b);
    PatternHoldsAnchor(h, Find(h, PATTERN).value);
    SwallowOnce(a, h, tags, rest, b);
    SecondPatchOf(a, h, tags, rest, p, b');
    if rest == "" {
      ClosingLine(rest);
      assert Leftover(rest) + b' == b';
      SwallowTwice(p);
    } else {
      OnceDiffers(a, h, tags, rest, b', Leftover(rest) + b');
    }
  }

  lemma PatternCase(cleaned: seq<string>, i: nat, tags: seq<Tag>)
    requires Clean(cleaned) && AllOneLine(cleaned) && TagsOneLine(tags) && PatternLine(cleaned) == Some(i)
    ensures PatchDocsByLine(Written(InsertFragment(cleaned, tags)), tags) == Written(InsertFragment(cleaned, tags)) <==>
            Rest(cleaned[i]) == "" && !EndsInTwoBlanks(cleaned)
  {
    var l := cleaned[i];
    var a, h, b := cleaned[..i], Head(l), cleaned[i + 1..];
    HeadFinds(l);
    assert l in cleaned && forall y :: y in a || y in b ==> y in cleaned;
    assert !Opens(Docs, h) by { assert h <= l; }
    InsertedOneLine(cleaned, tags);
    SecondPatch(a, h, tags, Rest(l), b);
    TwoBlanksKept(cleaned, i, tags);
  }

  lemma PatternHasAnchor(cleaned: seq<string>, i: nat)
    requires PatternLine(cleaned) == Some(i)
    ensures HasAnchor(cleaned)
  {
    PatternLineHolds(cleaned, i);
  }

  lemma TwoBlanksKept(cleaned: seq<string>, i: nat, tags: seq<Tag>)
    requires PatternLine(cleaned) == Some(i)
    ensures EndsInTwoBlanks(InsertFragment(cleaned, tags)) <==> EndsInTwoBlanks(cleaned)
  {
    PatternLineHolds(cleaned, i);
    BlanksBeyond(cleaned, i);
    BlanksInserted(cleaned, i, tags);
  }

  lemma PatternLineHolds(ls: seq<string>, i: nat)
    requires PatternLine(ls) == Some(i)
    ensures Find(ls[i], ANCHOR).Some? && ls[i] != ""
  {
    PatternHoldsAnchor(ls[i], Find(ls[i], PATTERN).value);
  }

  lemma BlanksInserted(ls: seq<string>, i: nat, tags: seq<Tag>)
    requires PatternLine(ls) == Some(i)
    ensures EndsInTwoBlanks(InsertFragment(ls, tags)) <==> TwoBlanks(ls[i + 1..])
  {
    BlanksOnce(ls[..i], Head(ls[i]), tags, Rest(ls[i]), ls[i + 1..]);
  }

  lemma BlanksOnce(a: seq<string>, h: string, tags: seq<Tag>, rest: string, b: seq<string>)
    ensures EndsInTwoBlanks(Once(a, h, tags, rest, b)) <==> TwoBlanks(b)
  {
    BlanksAround(a, h, FragmentFront(tags), CLOSING + rest, b);
  }

  lemma BlanksBeyond(ls: seq<string>, i: nat)
    requires i < |ls| && ls[i] != ""
    ensures EndsInTwoBlanks(ls) <==> TwoBlanks(ls[i + 1..])
  {
    assert ls == ls[..i + 1] + ls[i + 1..];
    BlanksAfter(ls[..i + 1], ls[i + 1..]);
  }

  lemma BlanksAround(a: seq<string>, h: string, front: seq<string>, last: string, b: seq<string>)
    requires last != ""
    ensures EndsInTwoBlanks(Around(a, h, front + [last], b)) <==> TwoBlanks(b)
  {
    BlanksAfter(a + [h] + (front + [last]), b);
  }

  lemma BlanksAfter(x: seq<string>, b: seq<string>)
    requires x != [] && x[|x| - 1] != ""
    ensures EndsInTwoBlanks(x + b) <==> TwoBlanks(b)
  {
    if |b| == 1 { assert (x + b)[|x + b| - 2] == x[|x| - 1]; }
  }

  lemma ByLineIdempotentIff(text: string, tags: seq<Tag>)
    requires tags != [] && TagsOneLine(tags)
    ensures PatchDocsByLine(PatchDocsByLine(text, tags), tags) == PatchDocsByLine(text, tags) <==>
            !HasAnchor(Split(text)) || Settles(Scan(Docs, false, Split(text)).kept)
  {
    var cleaned := Scan(Docs, false, Split(text)).kept;
    KeptOpensNothing(Docs, false, Split(text));
    KeptOneLine(Docs, Split(text));
    match PatternLine(cleaned) {
      case None => if HasAnchor(cleaned) { AnchorOnlyCase(cleaned, tags); } else { NothingCase(cleaned, tags); }
      case Some(i) =>
        PatternCase(cleaned, i, tags);
        PatternHasAnchor(cleaned, i);
    }
  }

  /**
   * The script calls itself idempotent. For docs.go that holds exactly when the anchor is absent or
   * the stripped text settles: it fails when something follows the pattern on its line, and when
   * the text ends in two blank lines, of which every run removes one.
   */
  lemma PatchDocsIdempotentIff(text: string, tags: seq<Tag>)
    requires tags != [] && TagsOneLine(tags)
    ensures PatchDocs(PatchDocs(text, tags), tags) == PatchDocs(text, tags) <==>
            Find(text, ANCHOR).None? || Settles(Scan(Docs, false, Split(text)).kept)
  {
    DocsByLine(text, tags);
    DocsByLine(PatchDocs(text, tags), tags);
    AnchorInLines(text);
    ByLineIdempotentIff(text, tags);
  }

  /** Two families it does not settle on: something after the pattern, and two blank lines at the end. */
  lemma DocsCanDrift(rest: string, blanks: seq<string>, tags: seq<Tag>)
    requires tags != [] && TagsOneLine(tags) && OneLine(rest) && forall j :: 0 <= j < |blanks| ==> blanks[j] == ""
    requires rest != "" || |blanks| >= 2
    ensures var text := Terminated([PATTERN + rest] + blanks);
            PatchDocs(PatchDocs(text, tags), tags) != PatchDocs(text, tags)
  {
    var ls := [PATTERN + rest] + blanks;
    PatternFirst(rest, blanks);
    PatternLineHolds(ls, 0);
    LinesComeBack(rest, blanks);
    AnchorInLines(Terminated(ls));
    PatchDocsIdempotentIff(Terminated(ls), tags);
  }

  lemma PatternFirst(rest: string, b: seq<string>)
    ensures var ls := [PATTERN + rest] + b; PatternLine(ls) == Some(0) && Rest(ls[0]) == rest
  {
    var l := PATTERN + rest;
    PrefixFinds(PATTERN, rest);
    PatternAfter([], l, b);
    assert [] + [l] + b == [l] + b;
  }

  lemma LinesComeBack(rest: string, b: seq<string>)
    requires OneLine(rest) && forall j :: 0 <= j < |b| ==> b[j] == ""
    ensures var ls := [PATTERN + rest] + b; Split(Terminated(ls)) == ls && Scan(Docs, false, ls).kept == ls
  {
    var l := PATTERN + rest;
    assert l[5] == 's';
    assert OneLine(PATTERN) && OneLine("");
    SplitTerminated([l] + b);
    ScanClean(Docs, [l] + b);
  }

  // ---- which lines survive the strip -----------------------------------------------------------

  /** Trimming takes away exactly the blanks at both ends. */
  lemma TrimIs(s: string) returns (i: nat, j: nat)
    ensures i <= j <= |s| && Trim(s) == s[i..j]
    ensures forall x :: 0 <= x < i || j <= x < |s| ==> IsSpace(s[x])
    ensures i < j ==> !IsSpace(s[i]) && !IsSpace(s[j - 1])
  {
    i := TrimLeftIs(s);
    var n := TrimRightIs(s[i..]);
    j := i + n;
    assert s[i..][..n] == s[i..j];
    assert forall x :: j <= x < |s| ==> s[x] == s[i..][x - i];
  }

  lemma {:induction false} TrimLeftIs(s: string) returns (i: nat)
    ensures i <= |s| && TrimLeft(s) == s[i..] && (i < |s| ==> !IsSpace(s[i]))
    ensures forall x :: 0 <= x < i ==> IsSpace(s[x])
    decreases |s|
  {
    if s != "" && IsSpace(s[0]) {
      i := TrimLeftIs(s[1..]);
      assert s[1..][i..] == s[i + 1..] && forall x :: 1 <= x < i + 1 ==> s[x] == s[1..][x - 1];
      i := i + 1;
    } else {
      i := 0;
    }
  }

  lemma {:induction false} TrimRightIs(s: string) returns (n: nat)
    ensures n <= |s| && TrimRight(s) == s[..n] && (n > 0 ==> !IsSpace(s[n - 1]))
    ensures forall x :: n <= x < |s| ==> IsSpace(s[x])
    decreases |s|
  {
    if s != "" && IsSpace(s[|s| - 1]) {
      n := TrimRightIs(s[..|s| - 1]);
      assert s[..|s| - 1][..n] == s[..n];
    } else {
      n := |s|;
    }
  }

  /** A line that starts the next key at the depth of the block. */
  predicate NextKey(l: string) {
    "    \"" <= l && !("    \"name\":" <= l) && !("    \"description\":" <= l)
  }

  /** A line that belongs to an open block: blank, its closing bracket, or deeper than the block. */
  predicate Belongs(l: string) {
    !NextKey(l) && (Trim(l) == "" || Trim(l) == "]," || "        " <= l)
  }

  /** Line j is in a block: one opened at i <= j, since when every line belonged and none before j closed it. */
  ghost predicate InDocsBlock(ls: seq<string>, j: nat)
    requires j < |ls|
  {
    exists i :: 0 <= i <= j && OpenedAt(ls, i, j)
  }

  ghost predicate OpenedAt(ls: seq<string>, i: nat, j: nat)
    requires i <= j < |ls|
  {
    "    \"tags\":" <= ls[i] && forall m :: i < m <= j ==> Belongs(ls[m]) && (m < j ==> Trim(ls[m]) != "],")
  }

  ghost function OutsideDocs(ls: seq<string>, n: nat): seq<string>
    requires n <= |ls|
  {
    if n == 0 then [] else OutsideDocs(ls, n - 1) + if InDocsBlock(ls, n - 1) then [] else [ls[n - 1]]
  }

  /** What the loop does with a line inside a block, without the trimmed copies. */
  lemma DocsStepIs(l: string)
    requires !Opens(Docs, l)
    ensures Step(Docs, true, l) == if Belongs(l) then After(Trim(l) != "],", false) else After(false, true)
  {
    NextKeyIs(l);
  }

  lemma NextKeyIs(l: string)
    ensures var s := TrimLeft(l);
            NextKey(l) <==> "\"" <= s && "    \"" <= l && !("\"name\":" <= s || "\"description\":" <= s)
  {
    if "    \"" <= l {
      QuotedAtFour(l);
      PrefixBehind(l[..4], "\"name\":", l);
      PrefixBehind(l[..4], "\"description\":", l);
      NameIndent(l[..4]);
    }
  }

  lemma QuotedAtFour(l: string)
    requires "    \"" <= l
    ensures |l| >= 5 && l[..4] == "    " && l[4] == '"' && TrimLeft(l) == l[4..]
  {
    assert l[0] == l[1] == l[2] == l[3] == ' ' && l[4] == '"';
    TrimHead(l, 4);
  }

  lemma NameIndent(a: string)
    requires a == "    "
    ensures a + "\"name\":" == "    \"name\":" && a + "\"description\":" == "    \"description\":"
  {
  }

  lemma PrefixBehind(a: string, b: string, l: string)
    requires a <= l
    ensures b <= l[|a|..] <==> a + b <= l
  {
    if b <= l[|a|..] { assert l == a + l[|a|..]; }
    if a + b <= l { assert l[|a|..][..|b|] == l[|a|..|a| + |b|] == (a + b)[|a|..] == b; }
  }

  lemma InDocsBlockStep(ls: seq<string>, j: nat)
    requires j < |ls|
    ensures InDocsBlock(ls, j) <==>
            || Opens(Docs, ls[j])
            || (j > 0 && InDocsBlock(ls, j - 1) && !Closes(ls, j - 1) && Belongs(ls[j]))
  {
    if InDocsBlock(ls, j) {
      var i :| 0 <= i <= j && OpenedAt(ls, i, j);
      if i < j { OpenedBefore(ls, i, j); }
    }
    if Opens(Docs, ls[j]) { assert OpenedAt(ls, j, j); }
    if j > 0 && InDocsBlock(ls, j - 1) && !Closes(ls, j - 1) && Belongs(ls[j]) {
      var i :| 0 <= i <= j - 1 && OpenedAt(ls, i, j - 1);
      OpenedLonger(ls, i, j);
    }
  }

  lemma OpenedBefore(ls: seq<string>, i: nat, j: nat)
    requires i < j < |ls| && OpenedAt(ls, i, j)
    ensures OpenedAt(ls, i, j - 1) && !Closes(ls, j - 1) && Belongs(ls[j])
  {
    assert j - 1 > i ==> Trim(ls[j - 1]) != "],";
  }

  lemma OpenedLonger(ls: seq<string>, i: nat, j: nat)
    requires i < j < |ls| && OpenedAt(ls, i, j - 1) && !Closes(ls, j - 1) && Belongs(ls[j])
    ensures InDocsBlock(ls, j)
  {
    if Opens(Docs, ls[j - 1]) {
      assert OpenedAt(ls, j - 1, j);
    } else {
      assert OpenedAt(ls, i, j);
    }
  }

  /** The line ends its block: a closing bracket, which an opening line never is. */
  predicate Closes(ls: seq<string>, j: nat)
    requires j < |ls|
  {
    !Opens(Docs, ls[j]) && Trim(ls[j]) == "],"
  }

  /** Exactly the lines outside tags blocks survive the strip of docs.go, in order. */
  lemma {:induction false} OutsideDocsSurvive(ls: seq<string>, n: nat)
    requires n <= |ls|
    ensures Scan(Docs, false, ls[..n]).kept == OutsideDocs(ls, n)
    ensures Scan(Docs, false, ls[..n]).inside <==> n > 0 && InDocsBlock(ls, n - 1) && !Closes(ls, n - 1)
  {
    if n > 0 {
      OutsideDocsSurvive(ls, n - 1);
      InDocsBlockStep(ls, n - 1);
      DocsLineIs(n > 1 && InDocsBlock(ls, n - 2) && !Closes(ls, n - 2), ls[n - 1]);
      ScanLast(Docs, false, ls, n);
    }
  }

  lemma ScanLast(m: Mode, inside: bool, ls: seq<string>, n: nat)
    requires 0 < n <= |ls|
    ensures Scan(m, inside, ls[..n]) == Next(m, Scan(m, inside, ls[..n - 1]), ls[n - 1])
  {
    assert ls[..n][..n - 1] == ls[..n - 1];
  }

  lemma DocsLineIs(inside: bool, l: string)
    ensures Step(Docs, inside, l) ==
            if Opens(Docs, l) then After(true, false)
            else if inside && Belongs(l) then After(Trim(l) != "],", false)
            else After(false, true)
  {
    if !Opens(Docs, l) { DocsStepIs(l); }
  }

  // ---- what the output holds ---------------------------------------------------------------------

  lemma {:induction false} BodyAt(tags: seq<Tag>, i: nat)
    requires i < |tags|
    ensures |FragmentBody(tags)| == 4 * |tags|
    ensures var b, at := FragmentBody(tags), 4 * i;
            && b[at] == "        {"
            && b[at + 1] == "            \"name\": " + tags[i].name + ","
            && b[at + 2] == "            \"description\": " + tags[i].description
            && b[at + 3] == if i == |tags| - 1 then "        }" else "        },"
  {
    if |tags| > 1 { BodyAt(tags[1..], if i > 0 then i - 1 else 0); }
    if i > 0 { assert tags[1..][i - 1] == tags[i]; }
  }

  /**
   * What a patched docs.go is, when the anchor is there and a surviving line holds the pattern: the
   * surviving lines, the first of those cut after its pattern and followed by the opening of the
   * block, four lines for each tag and the closing, with the rest of the cut line behind it.
   */
  lemma PatchedDocsIs(text: string, tags: seq<Tag>, anchor: string, pat: string) returns (i: nat)
    requires anchor == "\"swagger\": \"2.0\"," && pat == "    \"swagger\": \"2.0\","
    requires TagsOneLine(tags) && Find(text, anchor).Some?
    requires var kept := OutsideDocs(Split(text), |Split(text)|);
             exists j :: 0 <= j < |kept| && Find(kept[j], pat).Some?
    ensures var kept := OutsideDocs(Split(text), |Split(text)|);
            && i < |kept| && Find(kept[i], pat).Some? && (forall j :: 0 <= j < i ==> Find(kept[j], pat).None?)
            && Split(PatchDocs(text, tags)) ==
               Swallowed(Around(kept[..i], Through(kept[i], pat), BlockLines(tags, Beyond(kept[i], pat)),
                                kept[i + 1..]))
  {
    LiteralsAre(anchor, pat);
    i := PatchedAt(text, tags);
  }

  /** The block: its opening, four lines for each tag, its closing. */
  function BlockLines(tags: seq<Tag>, rest: string): seq<string> {
    ["    \"tags\": ["] + FragmentBody(tags) + ["    ]," + rest]
  }

  lemma LiteralsAre(anchor: string, pat: string)
    requires anchor == "\"swagger\": \"2.0\"," && pat == "    \"swagger\": \"2.0\","
    ensures anchor == ANCHOR && pat == PATTERN
  {
  }

  lemma PatchedAt(text: string, tags: seq<Tag>) returns (i: nat)
    requires TagsOneLine(tags) && Find(text, ANCHOR).Some?
    requires var kept := OutsideDocs(Split(text), |Split(text)|);
             exists j :: 0 <= j < |kept| && Find(kept[j], PATTERN).Some?
    ensures var kept := OutsideDocs(Split(text), |Split(text)|);
            && i < |kept| && Find(kept[i], PATTERN).Some?
            && (forall j :: 0 <= j < i ==> Find(kept[j], PATTERN).None?)
            && Split(PatchDocs(text, tags)) ==
               Swallowed(Around(kept[..i], Through(kept[i], PATTERN), BlockLines(tags, Beyond(kept[i], PATTERN)),
                                kept[i + 1..]))
  {
    var lines := Split(text);
    var kept := Scan(Docs, false, lines).kept;
    OutsideDocsSurvive(lines, |lines|);
    assert lines[..|lines|] == lines;
    i := PatternLine(kept).value;
    WrittenPatch(text, kept, i, tags);
    BlockLinesAre(tags, Rest(kept[i]));
  }

  lemma BlockLinesAre(tags: seq<Tag>, rest: string)
    ensures FragmentFront(tags) + [CLOSING + rest] == BlockLines(tags, rest)
  {
  }

  lemma WrittenPatch(text: string, kept: seq<string>, i: nat, tags: seq<Tag>)
    requires TagsOneLine(tags) && Find(text, ANCHOR).Some? && kept == Scan(Docs, false, Split(text)).kept
    requires PatternLine(kept) == Some(i)
    ensures Split(PatchDocs(text, tags)) ==
      Swallowed(Once(kept[..i], Head(kept[i]), tags, Rest(kept[i]), kept[i + 1..]))
  {
    DocsByLine(text, tags);
    AnchorInLines(text);
    KeptOneLine(Docs, Split(text));
    InsertedOneLine(kept, tags);
    OnceHolds(kept[..i], Head(kept[i]), tags, Rest(kept[i]), kept[i + 1..]);
    WrittenIs(InsertFragment(kept, tags));
  }
}
