/**
 * scripts/patch-swagger-extensions.py: the line loops that strip a tags block, and swagger.yaml,
 * where the current block is put back.
 */
module Patcher {
  import opened TextLines

  // ---- the two strip loops --------------------------------------------------------------------

  datatype Mode = Yaml | Docs

  /** The line that opens a tags block. */
  predicate Opens(m: Mode, l: string) {
    match m case Yaml => "tags:" <= l case Docs => "    \"tags\":" <= l
  }

  function TrimLeft(s: string): string {
    if s != "" && IsSpace(s[0]) then TrimLeft(s[1..]) else s
  }

  function TrimRight(s: string): string {
    if s != "" && IsSpace(s[|s| - 1]) then TrimRight(s[..|s| - 1]) else s
  }

  function Trim(s: string): string { TrimRight(TrimLeft(s)) }

  datatype After = After(inside: bool, keep: bool)

  /** What one round of the loop does with a line: the new flag, and whether the line is kept. */
  function Step(m: Mode, inside: bool, l: string): After {
    if Opens(m, l) then After(true, false)
    else if !inside then After(false, true)
    else match m
      case Yaml => if l == "" || " " <= l || "-" <= l then After(true, false) else After(false, true)
      case Docs =>
        var s := TrimLeft(l);
        if "\"" <= s && "    \"" <= l && !("\"name\":" <= s || "\"description\":" <= s) then After(false, true)
        else if Trim(l) == "" || Trim(l) == "]," || "        " <= l then After(Trim(l) != "],", false)
        else After(false, true)
  }

  datatype Scanned = Scanned(inside: bool, kept: seq<string>)

  function Next(m: Mode, s: Scanned, l: string): Scanned {
    var a := Step(m, s.inside, l);
    Scanned(a.inside, s.kept + if a.keep then [l] else [])
  }

  function Scan(m: Mode, inside: bool, ls: seq<string>): Scanned {
    if ls == [] then Scanned(inside, [])
    else Next(m, Scan(m, inside, ls[..|ls| - 1]), ls[|ls| - 1])
  }

  /** The loop over `lines` with its flag, appending to the list of kept lines. */
  method StripLoop(m: Mode, lines: seq<string>) returns (cleaned: seq<string>)
    ensures cleaned == Scan(m, false, lines).kept
  {
    cleaned := [];
    var inside := false;
    for i := 0 to |lines|
      invariant Scanned(inside, cleaned) == Scan(m, false, lines[..i])
    {
      assert lines[..i + 1][..i] == lines[..i];
      var a := Step(m, inside, lines[i]);
      inside := a.inside;
      if a.keep { cleaned := cleaned + [lines[i]]; }
    }
    assert lines[..|lines|] == lines;
  }

  lemma {:induction false} ScanConcat(m: Mode, inside: bool, a: seq<string>, b: seq<string>)
    ensures var x := Scan(m, inside, a); var y := Scan(m, x.inside, b);
            Scan(m, inside, a + b) == Scanned(y.inside, x.kept + y.kept)
  {
    if b == [] {
      assert a + b == a;
    } else {
      var n := |b| - 1;
      ScanConcat(m, inside, a, b[..n]);
      assert (a + b)[..|a| + n] == a + b[..n] && (a + b)[|a| + n] == b[n];
      var x := Scan(m, inside, a);
      NextBehind(m, x.kept, Scan(m, x.inside, b[..n]), b[n]);
    }
  }

  lemma NextBehind(m: Mode, front: seq<string>, s: Scanned, l: string)
    ensures Next(m, Scanned(s.inside, front + s.kept), l) == Scanned(Next(m, s, l).inside, front + Next(m, s, l).kept)
  {
  }

  /** Once stripped, nothing opens a block any more, and stripping again changes nothing. */
  lemma {:induction false} KeptOpensNothing(m: Mode, inside: bool, ls: seq<string>)
    ensures forall l :: l in Scan(m, inside, ls).kept ==> l in ls && !Opens(m, l)
  {
    if ls != [] {
      KeptOpensNothing(m, inside, ls[..|ls| - 1]);
      assert ls == ls[..|ls| - 1] + [ls[|ls| - 1]];
    }
  }

  lemma {:induction false} ScanClean(m: Mode, ls: seq<string>)
    requires forall l :: l in ls ==> !Opens(m, l)
    ensures Scan(m, false, ls) == Scanned(false, ls)
  {
    if ls != [] {
      assert ls == ls[..|ls| - 1] + [ls[|ls| - 1]] && ls[|ls| - 1] in ls;
      ScanClean(m, ls[..|ls| - 1]);
    }
  }

  // ---- swagger.yaml --------------------------------------------------------------------------

  /** A tag, its description already rendered as a YAML or JSON scalar. */
  datatype Tag = Tag(name: string, description: string)

  function YamlEntries(tags: seq<Tag>): seq<string> {
    if tags == [] then []
    else ["- description: " + tags[0].description, "  name: " + tags[0].name] + YamlEntries(tags[1..])
  }

  function YamlBlock(tags: seq<Tag>): seq<string> {
    ["tags:"] + YamlEntries(tags)
  }

  predicate Anchors(l: string) { "securityDefinitions:" <= l }

  /** The index of the first line the block goes before, or the end. */
  function InsertAt(ls: seq<string>): (i: nat)
    ensures i <= |ls| && (i < |ls| ==> Anchors(ls[i])) && forall j :: 0 <= j < i ==> !Anchors(ls[j])
  {
    if ls == [] then 0 else
      var n := |ls| - 1;
      var i := InsertAt(ls[..n]);
      assert forall j :: 0 <= j < i ==> !Anchors(ls[..n][j]);
      if i < n then i else if Anchors(ls[n]) then n else n + 1
  }

  function PutBack(ls: seq<string>, i: nat, block: seq<string>): seq<string>
    requires i <= |ls|
  {
    ls[..i] + block + ls[i..]
  }

  function PatchYamlLines(ls: seq<string>, tags: seq<Tag>): seq<string> {
    var cleaned := Scan(Yaml, false, ls).kept;
    PutBack(cleaned, InsertAt(cleaned), YamlBlock(tags))
  }

  function PatchYaml(text: string, tags: seq<Tag>): string {
    Terminated(PatchYamlLines(Split(text), tags))
  }

  /** patch_yaml: strip, assemble the block line by line, find its place, put it there. */
  method RewriteYaml(text: string, tags: seq<Tag>) returns (out: string)
    ensures out == PatchYaml(text, tags)
  {
    var cleaned := StripLoop(Yaml, Split(text));
    var block := ["tags:"];
    for i := 0 to |tags|
      invariant block + YamlEntries(tags[i..]) == YamlBlock(tags)
    {
      block := block + ["- description: " + tags[i].description, "  name: " + tags[i].name];
    }
    assert block == YamlBlock(tags) by { assert YamlEntries(tags[|tags|..]) == []; }
    var at := 0;
    while at < |cleaned| && !Anchors(cleaned[at])
      invariant at <= |cleaned| && forall j :: 0 <= j < at ==> !Anchors(cleaned[j])
    {
      at := at + 1;
    }
    assert at == InsertAt(cleaned);
    out := Terminated(PutBack(cleaned, at, block));
  }

  lemma {:induction false} EntriesAreInside(tags: seq<Tag>)
    ensures Scan(Yaml, true, YamlEntries(tags)) == Scanned(true, [])
  {
    if tags != [] {
      var d: string, n: string := "- description: " + tags[0].description, "  name: " + tags[0].name;
      assert d[0] == '-' && n[0] == ' ';
      assert [d, n][..1] == [d];
      assert Scan(Yaml, true, [d]) == Scanned(true, []);
      assert Scan(Yaml, true, [d, n]) == Scanned(true, []);
      EntriesAreInside(tags[1..]);
      ScanConcat(Yaml, true, [d, n], YamlEntries(tags[1..]));
    }
  }

  lemma YamlBlockIsDropped(tags: seq<Tag>)
    ensures Scan(Yaml, false, YamlBlock(tags)) == Scanned(true, [])
  {
    assert Scan(Yaml, false, ["tags:"]) == Scanned(true, []);
    EntriesAreInside(tags);
    ScanConcat(Yaml, false, ["tags:"], YamlEntries(tags));
  }

  /** A line that ends a block: after it the scan is as if the block had not been there. */
  lemma ScanFromInside(m: Mode, ls: seq<string>)
    requires forall l :: l in ls ==> !Opens(m, l)
    requires ls != [] ==> Step(m, true, ls[0]) == After(false, true)
    ensures Scan(m, true, ls).kept == ls
  {
    if ls != [] {
      assert ls == [ls[0]] + ls[1..];
      assert Scan(m, true, [ls[0]]) == Scanned(false, [ls[0]]);
      ScanConcat(m, true, [ls[0]], ls[1..]);
      ScanClean(m, ls[1..]);
    }
  }

  /** Between clean lines, only what the scan keeps of the block itself is left. */
  lemma BlockLeaves(m: Mode, a: seq<string>, block: seq<string>, left: seq<string>, b: seq<string>, after: bool)
    requires forall l :: l in a ==> !Opens(m, l)
    requires Scan(m, false, block) == Scanned(after, left) && Scan(m, after, b).kept == b
    ensures Scan(m, false, a + block + b).kept == a + left + b
  {
    ScanClean(m, a);
    ScanConcat(m, false, a, block);
    ScanConcat(m, false, a + block, b);
  }

  lemma AnchorEndsBlock(l: string)
    requires Anchors(l) && !Opens(Yaml, l)
    ensures Step(Yaml, true, l) == After(false, true)
  {
    assert l[0] == 's';
  }

  /** Stripping what was just put back recovers the cleaned lines. */
  lemma StripUndoesPutBack(cleaned: seq<string>, tags: seq<Tag>)
    requires forall l :: l in cleaned ==> !Opens(Yaml, l)
    ensures Scan(Yaml, false, PutBack(cleaned, InsertAt(cleaned), YamlBlock(tags))).kept == cleaned
  {
    var i := InsertAt(cleaned);
    SliceOpensNothing(Yaml, cleaned, i);
    AnchoredTailKept(cleaned, i);
    YamlBlockIsDropped(tags);
    BlockLeaves(Yaml, cleaned[..i], YamlBlock(tags), [], cleaned[i..], true);
    Halves(cleaned, i);
  }

  lemma SliceOpensNothing(m: Mode, ls: seq<string>, i: nat)
    requires i <= |ls| && forall l :: l in ls ==> !Opens(m, l)
    ensures forall l :: l in ls[..i] || l in ls[i..] ==> !Opens(m, l)
  {
  }

  lemma AnchoredTailKept(ls: seq<string>, i: nat)
    requires i <= |ls| && (i < |ls| ==> Anchors(ls[i])) && forall l :: l in ls[i..] ==> !Opens(Yaml, l)
    ensures Scan(Yaml, true, ls[i..]).kept == ls[i..]
  {
    if i < |ls| {
      assert ls[i..][0] == ls[i] && ls[i] in ls[i..];
      AnchorEndsBlock(ls[i]);
    }
    ScanFromInside(Yaml, ls[i..]);
  }

  lemma Halves(ls: seq<string>, i: nat)
    requires i <= |ls|
    ensures ls[..i] + [] + ls[i..] == ls
  {
  }

  lemma {:induction false} EntriesOneLine(tags: seq<Tag>)
    requires forall t :: t in tags ==> OneLine(t.name) && OneLine(t.description)
    ensures AllOneLine(YamlEntries(tags))
  {
    if tags != [] {
      assert OneLine("- description: ") && OneLine("  name: ");
      assert forall t :: t in tags[1..] ==> t in tags;
      assert tags[0] in tags;
      EntriesOneLine(tags[1..]);
    }
  }

  /** Patching swagger.yaml twice is patching it once, for every text and every tag list. */
  lemma PatchYamlIdempotent(text: string, tags: seq<Tag>)
    requires forall t :: t in tags ==> OneLine(t.name) && OneLine(t.description)
    ensures PatchYaml(PatchYaml(text, tags), tags) == PatchYaml(text, tags)
  {
    var lines := Split(text);
    var cleaned := Scan(Yaml, false, lines).kept;
    KeptOpensNothing(Yaml, false, lines);
    assert AllOneLine(cleaned) by {
      forall i | 0 <= i < |cleaned| ensures OneLine(cleaned[i]) { assert cleaned[i] in cleaned && cleaned[i] in lines; }
    }
    EntriesOneLine(tags);
    assert OneLine("tags:");
    SplitTerminated(PatchYamlLines(lines, tags));
    StripUndoesPutBack(cleaned, tags);
  }

  // ---- which lines survive ---------------------------------------------------------------------

  /** Line j belongs to a top-level tags block: an opening line, then only continuation lines. */
  ghost predicate InBlock(ls: seq<string>, j: nat)
    requires j < |ls|
  {
    exists i :: 0 <= i <= j && "tags:" <= ls[i] && forall m :: i < m <= j ==> Continues(ls[m])
  }

  predicate Continues(l: string) { l == "" || " " <= l || "-" <= l }

  ghost function Outside(ls: seq<string>, n: nat): seq<string>
    requires n <= |ls|
  {
    if n == 0 then [] else Outside(ls, n - 1) + if InBlock(ls, n - 1) then [] else [ls[n - 1]]
  }

  lemma InBlockStep(ls: seq<string>, j: nat)
    requires j < |ls|
    ensures InBlock(ls, j) <==> Opens(Yaml, ls[j]) || (j > 0 && InBlock(ls, j - 1) && Continues(ls[j]))
  {
    if InBlock(ls, j) {
      var i :| 0 <= i <= j && Opens(Yaml, ls[i]) && forall m :: i < m <= j ==> Continues(ls[m]);
      assert i < j ==> forall m :: i < m <= j - 1 ==> Continues(ls[m]);
    }
    if j > 0 && InBlock(ls, j - 1) && Continues(ls[j]) {
      var i :| 0 <= i <= j - 1 && Opens(Yaml, ls[i]) && forall m :: i < m <= j - 1 ==> Continues(ls[m]);
      assert forall m :: i < m <= j ==> Continues(ls[m]);
    }
  }

  /** Exactly the lines outside top-level tags blocks survive the strip, in order. */
  lemma {:induction false} OutsideLinesSurvive(ls: seq<string>, n: nat)
    requires n <= |ls|
    ensures Scan(Yaml, false, ls[..n]).kept == Outside(ls, n)
    ensures Scan(Yaml, false, ls[..n]).inside <==> n > 0 && InBlock(ls, n - 1)
  {
    if n > 0 {
      OutsideLinesSurvive(ls, n - 1);
      assert ls[..n][..n - 1] == ls[..n - 1];
      InBlockStep(ls, n - 1);
    }
  }

  lemma {:induction false} EntriesAt(tags: seq<Tag>, i: nat)
    requires i < |tags|
    ensures |YamlEntries(tags)| == 2 * |tags|
    ensures YamlEntries(tags)[2 * i] == "- description: " + tags[i].description
    ensures YamlEntries(tags)[2 * i + 1] == "  name: " + tags[i].name
  {
    if |tags| > 1 { EntriesAt(tags[1..], if i > 0 then i - 1 else 0); }
    if i > 0 { assert tags[1..][i - 1] == tags[i]; }
  }

  /**
   * What a patched swagger.yaml is, line by line: the lines outside tags blocks, and between them,
   * before the first securityDefinitions line or else at the end, "tags:" followed for each tag by its
   * description and its name.
   */
  lemma PatchedYamlIs(text: string, tags: seq<Tag>) returns (at: nat)
    requires forall t :: t in tags ==> OneLine(t.name) && OneLine(t.description)
    ensures var kept, out := Outside(Split(text), |Split(text)|), Split(PatchYaml(text, tags));
            && at <= |kept| && (at < |kept| ==> "securityDefinitions:" <= kept[at])
            && (forall j :: 0 <= j < at ==> !("securityDefinitions:" <= kept[j]))
            && |out| == |kept| + 1 + 2 * |tags|
            && out[..at] == kept[..at] && out[at] == "tags:" && out[at + 1 + 2 * |tags|..] == kept[at..]
            && forall i :: 0 <= i < |tags| ==>
                 && out[at + 1 + 2 * i] == "- description: " + tags[i].description
                 && out[at + 2 + 2 * i] == "  name: " + tags[i].name
  {
    var lines := Split(text);
    var kept := Scan(Yaml, false, lines).kept;
    OutsideLinesSurvive(lines, |lines|);
    assert lines[..|lines|] == lines;
    at := InsertAt(kept);
    PatchedOneLine(lines, tags);
    SplitTerminated(PatchYamlLines(lines, tags));
    PutBackParts(kept, at, tags);
  }

  lemma PatchedOneLine(lines: seq<string>, tags: seq<Tag>)
    requires AllOneLine(lines) && forall t :: t in tags ==> OneLine(t.name) && OneLine(t.description)
    ensures AllOneLine(PatchYamlLines(lines, tags))
  {
    var kept := Scan(Yaml, false, lines).kept;
    KeptOpensNothing(Yaml, false, lines);
    forall i | 0 <= i < |kept| ensures OneLine(kept[i]) { assert kept[i] in kept && kept[i] in lines; }
    EntriesOneLine(tags);
    assert OneLine("tags:");
  }

  lemma PutBackParts(kept: seq<string>, at: nat, tags: seq<Tag>)
    requires at <= |kept|
    ensures var out := PutBack(kept, at, YamlBlock(tags));
            && |out| == |kept| + 1 + 2 * |tags|
            && out[..at] == kept[..at] && out[at] == "tags:" && out[at + 1 + 2 * |tags|..] == kept[at..]
            && forall i :: 0 <= i < |tags| ==>
                 && out[at + 1 + 2 * i] == "- description: " + tags[i].description
                 && out[at + 2 + 2 * i] == "  name: " + tags[i].name
  {
    var out := PutBack(kept, at, YamlBlock(tags));
    if tags != [] { EntriesAt(tags, 0); }
    forall i | 0 <= i < |tags|
      ensures out[at + 1 + 2 * i] == "- description: " + tags[i].description
      ensures out[at + 2 + 2 * i] == "  name: " + tags[i].name
    {
      EntriesAt(tags, i);
      assert out[at + 1 + 2 * i] == YamlEntries(tags)[2 * i] && out[at + 2 + 2 * i] == YamlEntries(tags)[2 * i + 1];
    }
  }
}
