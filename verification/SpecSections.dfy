/**
 The heading scanner of the spec drift gate and the two passes that walk a
 document's lines with it. Each pass rebuilds the fence state for itself; the
 lemmas show that they agree line by line.

 The regular expressions over heading text (negation, allowlist, exclusion) are
 given as predicates. Line numbers are 1-based, as in the program.
 */
module SpecSections {
  import opened Sorting

  predicate IsSpace(c: char) {
    c == ' ' || '\t' <= c <= '\r' || '\U{1c}' <= c <= '\U{1f}'
  }

  function LStrip(s: string): string {
    if s != "" && IsSpace(s[0]) then LStrip(s[1..]) else s
  }

  /** Python's str.rstrip. */
  function RStrip(s: string): string {
    if s != "" && IsSpace(s[|s| - 1]) then RStrip(s[..|s| - 1]) else s
  }

  predicate IsFence(line: string) {
    "```" <= LStrip(line)
  }

  /** 2, 3 or 4 for a heading the scanner records, 0 for any other line. */
  function HeadingLevel(line: string): nat {
    if "## " <= line && !("### " <= line) then 2
    else if "### " <= line && !("#### " <= line) then 3
    else if "#### " <= line && !("##### " <= line) then 4
    else 0
  }

  datatype Heading = Heading(line: nat, text: string, level: nat)

  datatype Subsection = Subsection(heading: string, headingLine: nat, bodyEnd: nat, negated: bool)

  /** `bodyEnd` is exclusive. */
  datatype Section = Section(heading: string, headingLine: nat, bodyEnd: nat, subsections: seq<Subsection>)

  // ---- What these ask of a line, character by character ----

  /** The blank characters by their codes. */
  predicate IsBlankCode(c: char) {
    c as int in {9, 10, 11, 12, 13, 28, 29, 30, 31, 32}
  }

  function LeadingHashes(line: string): nat {
    if line != "" && line[0] == '#' then 1 + LeadingHashes(line[1..]) else 0
  }

  lemma {:induction false} LeadingHashesCount(line: string)
    ensures
      var n := LeadingHashes(line);
      && n <= |line| && (forall i | 0 <= i < n :: line[i] == '#')
      && (n < |line| ==> line[n] != '#')
  {
    if line != "" && line[0] == '#' {
      LeadingHashesCount(line[1..]);
      var n := LeadingHashes(line[1..]);
      assert forall i | 0 < i < n + 1 :: line[i] == line[1..][i - 1];
      assert n < |line[1..]| ==> line[n + 1] == line[1..][n];
    }
  }

  /** A recorded heading of level 2, 3 or 4 is exactly a line that starts with that many
      '#' characters, no more, and then a space. */
  lemma {:induction false} LevelIsHashCount(line: string)
    ensures
      var n := LeadingHashes(line);
      HeadingLevel(line) == if 2 <= n <= 4 && n < |line| && line[n] == ' ' then n else 0
  {
    HashesThenSpace(line, "## ", 2);
    HashesThenSpace(line, "### ", 3);
    HashesThenSpace(line, "#### ", 4);
    HashesThenSpace(line, "##### ", 5);
  }

  lemma HashesThenSpace(line: string, p: string, k: nat)
    requires |p| == k + 1 && p[k] == ' ' && forall i | 0 <= i < k :: p[i] == '#'
    ensures p <= line <==> LeadingHashes(line) == k && k < |line| && line[k] == ' '
  {
    LeadingHashesCount(line);
    StartsWith(p, line);
    if p <= line {
      assert line[k] == p[k];
    }
  }

  lemma StartsWith(p: string, line: string)
    ensures p <= line <==> |p| <= |line| && forall i | 0 <= i < |p| :: line[i] == p[i]
  {
    if |p| <= |line| && forall i | 0 <= i < |p| :: line[i] == p[i] {
      assert line[..|p|] == p;
    }
  }

  /** Three backticks stand at position i, behind nothing but blanks. */
  ghost predicate BackticksAt(line: string, i: int) {
    && 0 <= i && i + 2 < |line| && line[i] == line[i + 1] == line[i + 2] == '`'
    && forall k | 0 <= k < i :: IsBlankCode(line[k])
  }

  /** A fence marker is exactly a line whose first non-blank characters are three backticks. */
  lemma {:induction false} FenceIsBackticks(line: string)
    ensures IsFence(line) <==> IsMarker(line)
  {
    if line != "" && IsSpace(line[0]) {
      FenceIsBackticks(line[1..]);
      if i :| BackticksAt(line[1..], i) {
        assert forall k | 0 < k < i + 1 :: line[k] == line[1..][k - 1];
        assert BackticksAt(line, i + 1);
      }
      if i :| BackticksAt(line, i) {
        assert BackticksAt(line[1..], i - 1);
      }
    } else {
      StartsWith("```", line);
      if "```" <= line {
        assert BackticksAt(line, 0);
      }
    }
  }

  /** Stripping takes the blanks at the end, all of them and nothing else. */
  lemma {:induction false} RStripIsExact(s: string)
    ensures
      var r := RStrip(s);
      && |r| <= |s| && r == s[..|r|] && (forall i | |r| <= i < |s| :: IsBlankCode(s[i]))
      && (r != "" ==> !IsBlankCode(r[|r| - 1]))
  {
    if s != "" && IsSpace(s[|s| - 1]) {
      RStripIsExact(s[..|s| - 1]);
    }
  }

  // ---- The document, line by line ----

  /** The whole-document fence flag after the first n lines. */
  predicate Fenced(lines: seq<string>, n: nat)
    requires n <= |lines|
  {
    n > 0 && (if IsFence(lines[n - 1]) then !Fenced(lines, n - 1) else Fenced(lines, n - 1))
  }

  ghost predicate IsMarker(line: string) {
    exists i :: BackticksAt(line, i)
  }

  ghost function FenceMarkers(lines: seq<string>, n: nat): set<nat>
    requires n <= |lines|
  {
    set k: nat | k < n && IsMarker(lines[k])
  }

  lemma MarkersGrow(lines: seq<string>, n: nat)
    requires 0 < n <= |lines|
    ensures |FenceMarkers(lines, n)| == |FenceMarkers(lines, n - 1)| + if IsMarker(lines[n - 1]) then 1 else 0
  {
    var before: set<nat> := FenceMarkers(lines, n - 1);
    var last: nat := n - 1;
    assert FenceMarkers(lines, n) == if IsMarker(lines[last]) then before + {last} else before;
  }

  /** A fence is open exactly behind an odd number of fence markers. */
  lemma {:induction false} FencedIsOdd(lines: seq<string>, n: nat)
    requires n <= |lines|
    ensures Fenced(lines, n) <==> |FenceMarkers(lines, n)| % 2 == 1
  {
    if n == 0 {
      assert FenceMarkers(lines, n) == {};
    } else {
      FencedIsOdd(lines, n - 1);
      FenceIsBackticks(lines[n - 1]);
      MarkersGrow(lines, n);
    }
  }

  predicate IsLine(lines: seq<string>, n: int) {
    1 <= n <= |lines|
  }

  /** Line n is neither a fence marker nor inside a fence. */
  predicate Visible(lines: seq<string>, n: int)
    requires IsLine(lines, n)
  {
    !IsFence(lines[n - 1]) && !Fenced(lines, n - 1)
  }

  predicate IsHeading(lines: seq<string>, n: int) {
    IsLine(lines, n) && Visible(lines, n) && HeadingLevel(lines[n - 1]) != 0
  }

  function HeadingAt(lines: seq<string>, n: int): Heading
    requires IsLine(lines, n)
  {
    Heading(n, RStrip(lines[n - 1]), HeadingLevel(lines[n - 1]))
  }

  function Headings(lines: seq<string>, n: nat): seq<Heading>
    requires n <= |lines|
  {
    if n == 0 then []
    else Headings(lines, n - 1) + (if IsHeading(lines, n) then [HeadingAt(lines, n)] else [])
  }

  predicate IsLevel2(h: Heading) {
    h.level == 2
  }

  function Level2(lines: seq<string>): seq<Heading> {
    Filter(IsLevel2, Headings(lines, |lines|))
  }

  function BodyEnd(lines: seq<string>, i: nat): nat
    requires i < |Level2(lines)|
  {
    if i + 1 < |Level2(lines)| then Level2(lines)[i + 1].line else |lines| + 1
  }

  function Within(start: nat, end: nat): Heading -> bool {
    (h: Heading) => h.level != 2 && start < h.line < end
  }

  function SubHeadings(lines: seq<string>, start: nat, end: nat): seq<Heading> {
    Filter(Within(start, end), Headings(lines, |lines|))
  }

  /** The line of the first heading from position k on whose level is at most `level`. */
  function NextAtMost(subs: seq<Heading>, k: nat, level: nat, end: nat): nat
    requires k <= |subs|
    decreases |subs| - k
  {
    if k == |subs| then end else if subs[k].level <= level then subs[k].line else NextAtMost(subs, k + 1, level, end)
  }

  function SubsectionAt(subs: seq<Heading>, j: nat, end: nat, negates: string -> bool): Subsection
    requires j < |subs|
  {
    Subsection(subs[j].text, subs[j].line, NextAtMost(subs, j + 1, subs[j].level, end), negates(subs[j].text))
  }

  function Subsections(lines: seq<string>, start: nat, end: nat, negates: string -> bool): seq<Subsection> {
    var subs := SubHeadings(lines, start, end);
    seq(|subs|, j requires 0 <= j < |subs| => SubsectionAt(subs, j, end, negates))
  }

  function SectionAt(lines: seq<string>, i: nat, negates: string -> bool): Section
    requires i < |Level2(lines)|
  {
    var h := Level2(lines)[i];
    Section(h.text, h.line, BodyEnd(lines, i), Subsections(lines, h.line, BodyEnd(lines, i), negates))
  }

  ghost predicate AreSections(lines: seq<string>, sections: seq<Section>, negates: string -> bool) {
    && |sections| == |Level2(lines)|
    && forall i | 0 <= i < |sections| :: sections[i] == SectionAt(lines, i, negates)
  }

  // ---- scan_sections ----

  method ScanHeadings(lines: seq<string>) returns (raw: seq<Heading>)
    ensures raw == Headings(lines, |lines|)
  {
    raw := [];
    var inFence := false;
    for idx := 1 to |lines| + 1
      invariant inFence == Fenced(lines, idx - 1)
      invariant raw == Headings(lines, idx - 1)
    {
      var line := lines[idx - 1];
      if IsFence(line) {
        inFence := !inFence;
        continue;
      }
      if inFence {
        continue;
      }
      if HeadingLevel(line) != 0 {
        raw := raw + [Heading(idx, RStrip(line), HeadingLevel(line))];
      }
    }
  }

  method FindSubEnd(subs: seq<Heading>, j: nat, end: nat) returns (subEnd: nat)
    requires j < |subs|
    ensures subEnd == NextAtMost(subs, j + 1, subs[j].level, end)
  {
    subEnd := end;
    for k := j + 1 to |subs|
      invariant NextAtMost(subs, j + 1, subs[j].level, end) == NextAtMost(subs, k, subs[j].level, end)
    {
      if subs[k].level <= subs[j].level {
        return subs[k].line;
      }
    }
  }

  method ScanSections(lines: seq<string>, negates: string -> bool) returns (sections: seq<Section>)
    ensures AreSections(lines, sections, negates)
    ensures forall i | 0 <= i < |sections| :: SaysItsLines(lines, sections[i], negates)
  {
    var raw := ScanHeadings(lines);
    var level2 := Filter(IsLevel2, raw);
    sections := [];
    for i := 0 to |level2|
      invariant |sections| == i
      invariant forall k | 0 <= k < i :: sections[k] == SectionAt(lines, k, negates)
    {
      var end := if i + 1 < |level2| then level2[i + 1].line else |lines| + 1;
      var start := level2[i].line;
      var mine := Filter(Within(start, end), raw);
      var subsections := [];
      for j := 0 to |mine|
        invariant |subsections| == j
        invariant forall k | 0 <= k < j :: subsections[k] == SubsectionAt(mine, k, end, negates)
      {
        var subEnd := FindSubEnd(mine, j, end);
        subsections := subsections + [Subsection(mine[j].text, mine[j].line, subEnd, negates(mine[j].text))];
      }
      assert subsections == Subsections(lines, start, end, negates);
      sections := sections + [Section(level2[i].text, start, end, subsections)];
    }
    forall i | 0 <= i < |sections|
      ensures SaysItsLines(lines, sections[i], negates)
    {
      SectionsSayTheirLines(lines, sections, negates, i);
    }
  }

  // ---- What the heading lists contain ----

  predicate Ascending(hs: seq<Heading>) {
    forall i, j | 0 <= i < j < |hs| :: hs[i].line < hs[j].line
  }

  predicate Recorded(lines: seq<string>, n: nat, h: Heading) {
    h.line <= n && IsHeading(lines, h.line) && h == HeadingAt(lines, h.line)
  }

  lemma {:induction false} HeadingsExact(lines: seq<string>, n: nat)
    requires n <= |lines|
    ensures Ascending(Headings(lines, n))
    ensures forall h :: h in Headings(lines, n) <==> Recorded(lines, n, h)
  {
    if n > 0 {
      HeadingsExact(lines, n - 1);
      var before := Headings(lines, n - 1);
      assert forall i | 0 <= i < |before| :: before[i] in before;
      forall h
        ensures h in Headings(lines, n) <==> Recorded(lines, n, h)
      {
        assert h in before <==> Recorded(lines, n - 1, h);
        assert h.line < n ==> (Recorded(lines, n, h) <==> Recorded(lines, n - 1, h));
      }
    }
  }

  lemma {:induction false} FilterKeepsAscending(p: Heading -> bool, hs: seq<Heading>)
    requires Ascending(hs)
    ensures Ascending(Filter(p, hs))
  {
    if hs != [] {
      FilterKeepsAscending(p, hs[1..]);
      FilterSubset(p, hs[1..]);
      var rest := Filter(p, hs[1..]);
      forall j | 0 <= j < |rest|
        ensures hs[0].line < rest[j].line
      {
        assert rest[j] in hs[1..];
      }
    }
  }

  lemma Level2Exact(lines: seq<string>)
    ensures Ascending(Level2(lines))
    ensures forall h :: h in Level2(lines) <==>
        IsHeading(lines, h.line) && h == HeadingAt(lines, h.line) && h.level == 2
  {
    HeadingsExact(lines, |lines|);
    FilterKeepsAscending(IsLevel2, Headings(lines, |lines|));
    FilterSubset(IsLevel2, Headings(lines, |lines|));
  }

  lemma Level2Lines(lines: seq<string>)
    ensures Ascending(Level2(lines))
    ensures forall i | 0 <= i < |Level2(lines)| :: 1 <= Level2(lines)[i].line <= |lines|
  {
    Level2Exact(lines);
    forall i | 0 <= i < |Level2(lines)|
      ensures 1 <= Level2(lines)[i].line <= |lines|
    {
      assert Level2(lines)[i] in Level2(lines);
    }
  }

  lemma SubHeadingsExact(lines: seq<string>, start: nat, end: nat)
    ensures Ascending(SubHeadings(lines, start, end))
    ensures forall h :: h in SubHeadings(lines, start, end) <==>
              IsHeading(lines, h.line) && h == HeadingAt(lines, h.line) && h.level != 2 && start < h.line < end
  {
    HeadingsExact(lines, |lines|);
    FilterKeepsAscending(Within(start, end), Headings(lines, |lines|));
    FilterSubset(Within(start, end), Headings(lines, |lines|));
  }

  // ---- Sections tile the document from the first level-2 heading on ----

  predicate Contains(s: Section, n: int) {
    s.headingLine <= n < s.bodyEnd
  }

  lemma SectionsAreConsecutive(lines: seq<string>, sections: seq<Section>, negates: string -> bool)
    requires AreSections(lines, sections, negates)
    ensures forall i | 0 <= i < |sections| :: 1 <= sections[i].headingLine < sections[i].bodyEnd <= |lines| + 1
    ensures forall i | 0 <= i < |sections| - 1 :: sections[i].bodyEnd == sections[i + 1].headingLine
    ensures sections != [] ==> sections[|sections| - 1].bodyEnd == |lines| + 1
    ensures forall i, j | 0 <= i < j < |sections| :: sections[i].bodyEnd <= sections[j].headingLine
  {
    var l2 := Level2(lines);
    Level2Lines(lines);
    forall i | 0 <= i < |sections|
      ensures sections[i].headingLine == l2[i].line && sections[i].bodyEnd == BodyEnd(lines, i)
    {
    }
  }

  lemma {:induction false} SectionHolding(sections: seq<Section>, n: int, upTo: nat) returns (i: nat)
    requires 0 < upTo <= |sections|
    requires forall k | 0 <= k < |sections| - 1 :: sections[k].bodyEnd == sections[k + 1].headingLine
    requires sections[0].headingLine <= n < sections[upTo - 1].bodyEnd
    ensures i < upTo && Contains(sections[i], n)
  {
    if sections[upTo - 1].headingLine <= n {
      i := upTo - 1;
    } else {
      i := SectionHolding(sections, n, upTo - 1);
    }
  }

  lemma LineHasSection(lines: seq<string>, sections: seq<Section>, negates: string -> bool, n: int, k: int)
    requires AreSections(lines, sections, negates) && IsLine(lines, n)
    requires k <= n && IsHeading(lines, k) && HeadingLevel(lines[k - 1]) == 2
    ensures exists i :: 0 <= i < |sections| && Contains(sections[i], n)
  {
    Level2Exact(lines);
    var h := HeadingAt(lines, k);
    assert h in Level2(lines);
    var m :| 0 <= m < |Level2(lines)| && Level2(lines)[m] == h;
    SectionsAreConsecutive(lines, sections, negates);
    assert sections[m].headingLine == k;
    var i := SectionHolding(sections, n, |sections|);
  }

  lemma SectionHeadingLine(lines: seq<string>, sections: seq<Section>, negates: string -> bool, i: nat)
    requires AreSections(lines, sections, negates) && i < |sections|
    ensures IsHeading(lines, sections[i].headingLine) && HeadingLevel(lines[sections[i].headingLine - 1]) == 2
    ensures sections[i].headingLine < sections[i].bodyEnd <= |lines| + 1
  {
    SectionsAreConsecutive(lines, sections, negates);
    Level2Exact(lines);
    assert Level2(lines)[i] in Level2(lines);
  }

  /** Every line from the first level-2 heading to the end is in exactly one section, every other line in none. */
  lemma SectionsTile(lines: seq<string>, sections: seq<Section>, negates: string -> bool, n: int)
    requires AreSections(lines, sections, negates) && IsLine(lines, n)
    ensures
      (exists i :: 0 <= i < |sections| && Contains(sections[i], n)) <==>
      (exists k :: k <= n && IsHeading(lines, k) && HeadingLevel(lines[k - 1]) == 2)
    ensures forall i, j | 0 <= i < |sections| && 0 <= j < |sections| && Contains(sections[i], n) &&
        Contains(sections[j], n) :: i == j
  {
    SectionsAreConsecutive(lines, sections, negates);
    if k :| k <= n && IsHeading(lines, k) && HeadingLevel(lines[k - 1]) == 2 {
      LineHasSection(lines, sections, negates, n, k);
    }
    if i :| 0 <= i < |sections| && Contains(sections[i], n) {
      SectionHeadingLine(lines, sections, negates, i);
    }
  }

  // ---- Resetting the fence flag at a section is sound ----

  /** The flag a pass sees before line n if it starts afresh after line `start`. */
  predicate FencedSince(lines: seq<string>, start: nat, n: nat)
    requires start <= n <= |lines|
    decreases n
  {
    n > start && (if IsFence(lines[n - 1]) then !FencedSince(lines, start, n - 1) else FencedSince(lines, start, n - 1))
  }

  lemma {:induction false} FenceRestart(lines: seq<string>, start: nat, n: nat)
    requires start <= n <= |lines| && !Fenced(lines, start)
    ensures FencedSince(lines, start, n) == Fenced(lines, n)
  {
    if start < n {
      FenceRestart(lines, start, n - 1);
    }
  }

  /** On every body line the per-section flag is the whole-document flag. */
  lemma FenceResetIsSound(lines: seq<string>, sections: seq<Section>, negates: string -> bool, i: nat, n: nat)
    requires AreSections(lines, sections, negates) && i < |sections|
    requires sections[i].headingLine < n < sections[i].bodyEnd
    ensures n <= |lines| && sections[i].headingLine <= n - 1
    ensures FencedSince(lines, sections[i].headingLine, n - 1) == Fenced(lines, n - 1)
  {
    SectionsAreConsecutive(lines, sections, negates);
    Level2Exact(lines);
    assert Level2(lines)[i] in Level2(lines);
    FenceRestart(lines, sections[i].headingLine, n - 1);
  }

  // ---- Subsections are laminar ----

  /** No heading after line h, up to and including line n, is of h's level or higher. */
  ghost predicate OpenThrough(lines: seq<string>, h: int, n: int) {
    && IsHeading(lines, h)
    && forall k | h < k <= n && IsHeading(lines, k) :: HeadingLevel(lines[h - 1]) < HeadingLevel(lines[k - 1])
  }

  lemma {:induction false} NextAtMostFinds(subs: seq<Heading>, k: nat, level: nat, end: nat)
    requires k <= |subs| && Ascending(subs) && forall j | 0 <= j < |subs| :: subs[j].line < end
    ensures
      var e := NextAtMost(subs, k, level, end);
      && e <= end
      && (e == end || exists j :: k <= j < |subs| && subs[j].line == e && subs[j].level <= level)
      && (forall j | k <= j < |subs| && subs[j].line < e :: level < subs[j].level)
    decreases |subs| - k
  {
    if k < |subs| && level < subs[k].level {
      NextAtMostFinds(subs, k + 1, level, end);
    }
  }

  /** In a section, the only level-2 heading is its own. */
  lemma NoLevel2Inside(lines: seq<string>, sections: seq<Section>, negates: string -> bool, i: nat, n: int)
    requires AreSections(lines, sections, negates) && i < |sections|
    requires sections[i].headingLine < n < sections[i].bodyEnd
    ensures IsLine(lines, n) && (IsHeading(lines, n) ==> HeadingLevel(lines[n - 1]) != 2)
  {
    SectionsAreConsecutive(lines, sections, negates);
    Level2Exact(lines);
    forall k | 0 <= k < |Level2(lines)|
      ensures Level2(lines)[k].line != n
    {
      assert k <= i || i + 1 <= k;
      assert Level2(lines)[i].line == sections[i].headingLine;
    }
    assert HeadingAt(lines, n) !in Level2(lines);
  }

  lemma SubHeadingPosition(lines: seq<string>, sections: seq<Section>, negates: string -> bool, i: nat, h: int)
    returns (j: nat)
    requires AreSections(lines, sections, negates) && i < |sections|
    requires sections[i].headingLine < h < sections[i].bodyEnd && IsHeading(lines, h)
    ensures
      var subs := SubHeadings(lines, sections[i].headingLine, sections[i].bodyEnd);
      j < |subs| && subs[j] == HeadingAt(lines, h)
  {
    var s := sections[i];
    NoLevel2Inside(lines, sections, negates, i, h);
    SubHeadingsExact(lines, s.headingLine, s.bodyEnd);
    var subs := SubHeadings(lines, s.headingLine, s.bodyEnd);
    assert HeadingAt(lines, h) in subs;
    j :| 0 <= j < |subs| && subs[j] == HeadingAt(lines, h);
  }

  lemma SectionSubs(lines: seq<string>, sections: seq<Section>, negates: string -> bool, i: nat)
    requires AreSections(lines, sections, negates) && i < |sections|
    ensures
      var s := sections[i];
      var subs := SubHeadings(lines, s.headingLine, s.bodyEnd);
      && |s.subsections| == |subs| && Ascending(subs)
      && (forall j | 0 <= j < |subs| :: s.subsections[j] == SubsectionAt(subs, j, s.bodyEnd, negates))
      && (forall j | 0 <= j < |subs| ::
            && s.headingLine < subs[j].line < s.bodyEnd && subs[j].level != 2
            && IsHeading(lines, subs[j].line) && subs[j] == HeadingAt(lines, subs[j].line))
  {
    var s := sections[i];
    SubHeadingsExact(lines, s.headingLine, s.bodyEnd);
    var subs := SubHeadings(lines, s.headingLine, s.bodyEnd);
    assert forall j | 0 <= j < |subs| :: subs[j] in subs;
  }

  lemma HeadingListIsLaminar(subs: seq<Heading>, j: nat, k: nat, end: nat)
    requires Ascending(subs) && j < k < |subs| && forall m | 0 <= m < |subs| :: subs[m].line < end
    ensures
      var a := NextAtMost(subs, j + 1, subs[j].level, end);
      var b := NextAtMost(subs, k + 1, subs[k].level, end);
      && subs[j].line < a <= end && subs[k].line < b <= end
      && (a <= subs[k].line || b <= a)
  {
    NextAtMostFinds(subs, j + 1, subs[j].level, end);
    NextAtMostFinds(subs, k + 1, subs[k].level, end);
  }

  /** Subsections lie inside their section, and any two are nested or disjoint. */
  lemma SubsectionsAreLaminar(lines: seq<string>, sections: seq<Section>, negates: string -> bool, i: nat, j: nat,
      k: nat)
    requires AreSections(lines, sections, negates) && i < |sections|
    requires j < k < |sections[i].subsections|
    ensures
      var s, a, b := sections[i], sections[i].subsections[j], sections[i].subsections[k];
      && s.headingLine < a.headingLine < b.headingLine < b.bodyEnd <= s.bodyEnd
      && a.headingLine < a.bodyEnd <= s.bodyEnd
      && (a.bodyEnd <= b.headingLine || b.bodyEnd <= a.bodyEnd)
  {
    SectionSubs(lines, sections, negates, i);
    HeadingListIsLaminar(SubHeadings(lines, sections[i].headingLine, sections[i].bodyEnd), j, k, sections[i].bodyEnd);
  }

  /** A later line of the section is in a subsection exactly while no heading of its level or higher intervenes. */
  lemma SubsectionReaches(lines: seq<string>, sections: seq<Section>, negates: string -> bool, i: nat, j: nat, n: int)
    requires AreSections(lines, sections, negates) && i < |sections| && j < |sections[i].subsections|
    requires sections[i].subsections[j].headingLine < n < sections[i].bodyEnd
    ensures n < sections[i].subsections[j].bodyEnd <==> OpenThrough(lines, sections[i].subsections[j].headingLine, n)
  {
    SectionSubs(lines, sections, negates, i);
    var s := sections[i];
    var subs := SubHeadings(lines, s.headingLine, s.bodyEnd);
    var h, level := subs[j].line, subs[j].level;
    var end := s.subsections[j].bodyEnd;
    NextAtMostFinds(subs, j + 1, level, s.bodyEnd);
    assert forall m | 0 <= m <= j :: subs[m].line <= h;
    if n < end {
      forall k | h < k <= n && IsHeading(lines, k)
        ensures level < HeadingLevel(lines[k - 1])
      {
        var m := SubHeadingPosition(lines, sections, negates, i, k);
      }
    }
  }

  /** Every heading inside a section has its subsection. */
  lemma SubsectionOf(lines: seq<string>, sections: seq<Section>, negates: string -> bool, i: nat, h: int)
    returns (j: nat)
    requires AreSections(lines, sections, negates) && i < |sections|
    requires sections[i].headingLine < h < sections[i].bodyEnd && IsHeading(lines, h)
    ensures j < |sections[i].subsections|
    ensures sections[i].subsections[j].headingLine == h
    ensures sections[i].subsections[j].negated == negates(RStrip(lines[h - 1]))
  {
    j := SubHeadingPosition(lines, sections, negates, i, h);
    SectionSubs(lines, sections, negates, i);
  }

  /** How many '#' characters a line number's line starts with. */
  function HashesAt(lines: seq<string>, n: int): nat {
    if IsLine(lines, n) then LeadingHashes(lines[n - 1]) else 0
  }

  lemma HeadingHashes(lines: seq<string>, h: Heading)
    requires IsHeading(lines, h.line) && h == HeadingAt(lines, h.line)
    ensures HashesAt(lines, h.line) == h.level && h.text == RStrip(lines[h.line - 1])
  {
    LevelIsHashCount(lines[h.line - 1]);
  }

  /** Every heading stands for what its line says: the section's line carries two '#', the
      subsections' three or four, their texts are the lines without trailing blanks, and
      the marks are what the text gets. */
  lemma SectionsSayTheirLines(lines: seq<string>, sections: seq<Section>, negates: string -> bool, i: nat)
    requires AreSections(lines, sections, negates) && i < |sections|
    ensures SaysItsLines(lines, sections[i], negates)
  {
    Level2Exact(lines);
    assert Level2(lines)[i] in Level2(lines);
    HeadingHashes(lines, Level2(lines)[i]);
    forall j | 0 <= j < |sections[i].subsections|
      ensures SaysItsLine(lines, sections[i].subsections[j], negates)
    {
      SubsectionSaysItsLine(lines, sections, negates, i, j);
    }
  }

  lemma SubsectionSaysItsLine(lines: seq<string>, sections: seq<Section>, negates: string -> bool, i: nat, j: nat)
    requires AreSections(lines, sections, negates) && i < |sections| && j < |sections[i].subsections|
    ensures SaysItsLine(lines, sections[i].subsections[j], negates)
  {
    SectionSubs(lines, sections, negates, i);
    var h := SubHeadings(lines, sections[i].headingLine, sections[i].bodyEnd)[j];
    HeadingHashes(lines, h);
    HeadingsAreDeepEnough(lines, h.line);
  }

  predicate SaysItsLines(lines: seq<string>, s: Section, negates: string -> bool) {
    && IsLine(lines, s.headingLine) && HashesAt(lines, s.headingLine) == 2
    && s.heading == RStrip(lines[s.headingLine - 1])
    && forall j | 0 <= j < |s.subsections| :: SaysItsLine(lines, s.subsections[j], negates)
  }

  predicate SaysItsLine(lines: seq<string>, b: Subsection, negates: string -> bool) {
    && IsLine(lines, b.headingLine) && HashesAt(lines, b.headingLine) in {3, 4}
    && b.heading == RStrip(lines[b.headingLine - 1]) && b.negated == negates(b.heading)
  }

  /** A #### heading between a ### heading and the next ### or ## heading, or the end of
      the section, lies with all its own lines inside the ### subsection. */
  lemma DetailsBelongToTheirHeading(
    lines: seq<string>, sections: seq<Section>, negates: string -> bool, i: nat, j: nat, k: nat)
    requires AreSections(lines, sections, negates) && i < |sections| && j < k < |sections[i].subsections|
    requires HashesAt(lines, sections[i].subsections[j].headingLine) == 3
    requires forall m | j < m <= k :: HashesAt(lines, sections[i].subsections[m].headingLine) == 4
    ensures
      var outer, inner := sections[i].subsections[j], sections[i].subsections[k];
      outer.headingLine < inner.headingLine < inner.bodyEnd <= outer.bodyEnd
  {
    var s := sections[i];
    SectionSubs(lines, sections, negates, i);
    SubsectionsAreLaminar(lines, sections, negates, i, j, k);
    var subs := SubHeadings(lines, s.headingLine, s.bodyEnd);
    forall m | j <= m <= k
      ensures subs[m].level == if m == j then 3 else 4
    {
      HeadingHashes(lines, subs[m]);
      assert s.subsections[m].headingLine == subs[m].line;
    }
    DeeperRunIsInside(subs, j, k, s.bodyEnd);
  }

  lemma DeeperRunIsInside(subs: seq<Heading>, j: nat, k: nat, end: nat)
    requires Ascending(subs) && j < k < |subs| && forall m | 0 <= m < |subs| :: subs[m].line < end
    requires forall m | j < m <= k :: subs[j].level < subs[m].level
    ensures subs[k].line < NextAtMost(subs, j + 1, subs[j].level, end)
  {
    NextAtMostFinds(subs, j + 1, subs[j].level, end);
  }

  // ---- Negation by subsection agrees with a one-pass stack of open headings ----

  /** `_is_in_negated_subsection`. */
  predicate InNegatedSubsection(s: Section, n: int) {
    exists j :: 0 <= j < |s.subsections| && s.subsections[j].headingLine < n < s.subsections[j].bodyEnd &&
        s.subsections[j].negated
  }

  datatype Open = Open(line: nat, level: nat, negated: bool)

  function PopTo(stack: seq<Open>, level: nat): seq<Open> {
    if stack == [] || stack[|stack| - 1].level < level then stack else PopTo(stack[..|stack| - 1], level)
  }

  /** Headings open after n lines, outermost first; nothing opens before a level-2 heading has. */
  function OpenHeadings(lines: seq<string>, negates: string -> bool, n: nat): seq<Open>
    requires n <= |lines|
  {
    if n == 0 then []
    else
      var before := OpenHeadings(lines, negates, n - 1);
      if !IsHeading(lines, n) then before
      else
        var level := HeadingLevel(lines[n - 1]);
        var kept := PopTo(before, level);
        if level == 2 then kept + [Open(n, 2, false)]
        else if kept == [] then []
        else kept + [Open(n, level, negates(RStrip(lines[n - 1])))]
  }

  /** Some negated heading above line n is open at line n. */
  predicate Silenced(lines: seq<string>, negates: string -> bool, n: nat)
    requires n <= |lines|
  {
    exists o :: o in OpenHeadings(lines, negates, n) && o.line < n && o.negated
  }

  predicate Deepening(stack: seq<Open>) {
    forall i, j | 0 <= i < j < |stack| :: stack[i].level < stack[j].level
  }

  lemma {:induction false} PopToKeeps(stack: seq<Open>, level: nat)
    requires Deepening(stack)
    ensures Deepening(PopTo(stack, level)) && PopTo(stack, level) <= stack
    ensures forall o :: o in PopTo(stack, level) <==> o in stack && o.level < level
  {
    if stack != [] && level <= stack[|stack| - 1].level {
      var init, last := stack[..|stack| - 1], stack[|stack| - 1];
      assert stack == init + [last];
      PopToKeeps(init, level);
    }
  }

  ghost predicate SectionStarted(lines: seq<string>, n: int) {
    exists k :: 1 <= k <= n && IsHeading(lines, k) && HeadingLevel(lines[k - 1]) == 2
  }

  predicate Describes(lines: seq<string>, negates: string -> bool, o: Open) {
    && IsHeading(lines, o.line)
    && o.level == HeadingLevel(lines[o.line - 1])
    && o.negated == (o.level != 2 && negates(RStrip(lines[o.line - 1])))
  }

  /** What the stack holds: the headings still open, once a section has started. */
  ghost predicate StackHolds(lines: seq<string>, negates: string -> bool, n: nat, o: Open) {
    Describes(lines, negates, o) && o.line <= n && OpenThrough(lines, o.line, n) && SectionStarted(lines, o.line)
  }

  ghost predicate StackExact(lines: seq<string>, negates: string -> bool, n: nat)
    requires n <= |lines|
  {
    var stack := OpenHeadings(lines, negates, n);
    && Deepening(stack)
    && (stack != [] ==> stack[0].level == 2)
    && (stack != [] <==> SectionStarted(lines, n))
    && (forall o :: o in stack <==> StackHolds(lines, negates, n, o))
  }

  lemma StackMembersStep(lines: seq<string>, negates: string -> bool, n: nat, o: Open)
    requires 0 < n <= |lines| && IsHeading(lines, n)
    ensures
      o.line < n ==>
      (StackHolds(lines, negates, n, o) <==>
       StackHolds(lines, negates, n - 1, o) && o.level < HeadingLevel(lines[n - 1]))
    ensures
      o.line == n ==>
      (StackHolds(lines, negates, n, o) <==> Describes(lines, negates, o) && SectionStarted(lines, n))
  {
  }

  lemma PushKeepsShape(before: seq<Open>, o: Open)
    requires Deepening(before) && (before != [] ==> before[0].level == 2) && 2 <= o.level
    ensures
      var kept := PopTo(before, o.level);
      && Deepening(kept + [o])
      && (kept == [] <==> before == [] || o.level == 2)
      && (kept != [] ==> kept[0].level == 2)
  {
    PopToKeeps(before, o.level);
    var kept := PopTo(before, o.level);
    if before != [] {
      assert before[0] in before;
    }
    if kept != [] {
      assert kept[0] == before[0] && kept[0] in kept;
    }
    forall i | 0 <= i < |kept|
      ensures kept[i].level < o.level
    {
      assert kept[i] in kept;
    }
  }

  lemma StackShapeStep(lines: seq<string>, negates: string -> bool, n: nat)
    requires 0 < n <= |lines| && IsHeading(lines, n) && StackExact(lines, negates, n - 1)
    ensures
      var stack := OpenHeadings(lines, negates, n);
      && Deepening(stack)
      && (stack != [] ==> stack[0].level == 2)
      && (stack != [] <==> SectionStarted(lines, n))
  {
    var before := OpenHeadings(lines, negates, n - 1);
    var level := HeadingLevel(lines[n - 1]);
    HeadingsAreDeepEnough(lines, n);
    PushKeepsShape(before, Open(n, level, level != 2 && negates(RStrip(lines[n - 1]))));
    if level != 2 {
      assert SectionStarted(lines, n) <==> SectionStarted(lines, n - 1);
    }
  }

  lemma StackStep(lines: seq<string>, negates: string -> bool, n: nat)
    requires 0 < n <= |lines| && IsHeading(lines, n) && StackExact(lines, negates, n - 1)
    ensures StackExact(lines, negates, n)
  {
    StackShapeStep(lines, negates, n);
    var before := OpenHeadings(lines, negates, n - 1);
    PopToKeeps(before, HeadingLevel(lines[n - 1]));
    forall o
      ensures o in OpenHeadings(lines, negates, n) <==> StackHolds(lines, negates, n, o)
    {
      StackMembersStep(lines, negates, n, o);
      assert o in before <==> StackHolds(lines, negates, n - 1, o);
    }
  }

  lemma StackSkips(lines: seq<string>, negates: string -> bool, n: nat)
    requires 0 < n <= |lines| && !IsHeading(lines, n) && StackExact(lines, negates, n - 1)
    ensures StackExact(lines, negates, n)
  {
    assert SectionStarted(lines, n) <==> SectionStarted(lines, n - 1);
    forall o
      ensures StackHolds(lines, negates, n, o) <==> StackHolds(lines, negates, n - 1, o)
    {
    }
  }

  lemma {:induction false} StackIsExact(lines: seq<string>, negates: string -> bool, n: nat)
    requires n <= |lines|
    ensures StackExact(lines, negates, n)
  {
    if n > 0 {
      StackIsExact(lines, negates, n - 1);
      if IsHeading(lines, n) {
        StackStep(lines, negates, n);
      } else {
        StackSkips(lines, negates, n);
      }
    }
  }

  /** Line n is outside fences and no fence marker, by its characters and those before it. */
  ghost predicate InTheOpen(lines: seq<string>, n: int) {
    IsLine(lines, n) && !IsMarker(lines[n - 1]) && |FenceMarkers(lines, n - 1)| % 2 == 0
  }

  /** Line n is a heading of level k: in the open, with exactly k '#' characters and then a space. */
  ghost predicate HeadingByText(lines: seq<string>, n: int, k: nat) {
    InTheOpen(lines, n) && LeadingHashes(lines[n - 1]) == k && k < |lines[n - 1]| && lines[n - 1][k] == ' '
  }

  lemma HeadingsByText(lines: seq<string>, n: int)
    requires IsLine(lines, n)
    ensures Visible(lines, n) <==> InTheOpen(lines, n)
    ensures forall k: nat | 2 <= k <= 4 ::
              HeadingByText(lines, n, k) <==> IsHeading(lines, n) && HeadingLevel(lines[n - 1]) == k
  {
    FenceIsBackticks(lines[n - 1]);
    FencedIsOdd(lines, n - 1);
    LevelIsHashCount(lines[n - 1]);
  }

  /** A ### or #### heading of level k at line h is negated, stands in some section, and no
      heading of level k or higher follows it up to line n. */
  ghost predicate NegatedAbove(lines: seq<string>, negates: string -> bool, h: int, k: nat, n: int) {
    && 1 <= h < n && 3 <= k <= 4 && HeadingByText(lines, h, k) && negates(RStrip(lines[h - 1]))
    && (exists m: int :: m < h && HeadingByText(lines, m, 2))
    && forall m: int, j: nat | h < m <= n && 2 <= j <= k :: !HeadingByText(lines, m, j)
  }

  /** Which lines are silenced, by the characters of the document alone. */
  lemma SilencedByText(lines: seq<string>, negates: string -> bool, n: nat)
    requires n <= |lines|
    ensures Silenced(lines, negates, n) <==> exists h, k :: NegatedAbove(lines, negates, h, k, n)
  {
    StackIsExact(lines, negates, n);
    if Silenced(lines, negates, n) {
      var o :| o in OpenHeadings(lines, negates, n) && o.line < n && o.negated;
      SilencerByText(lines, negates, n, o);
    }
    if h, k :| NegatedAbove(lines, negates, h, k, n) {
      NegatedAboveSilences(lines, negates, h, k, n);
    }
  }

  lemma SilencerByText(lines: seq<string>, negates: string -> bool, n: nat, o: Open)
    requires n <= |lines| && StackHolds(lines, negates, n, o) && o.line < n && o.negated
    ensures NegatedAbove(lines, negates, o.line, o.level, n)
  {
    var h, k := o.line, o.level;
    HeadingsAreDeepEnough(lines, h);
    HeadingsByText(lines, h);
    var m :| 1 <= m <= h && IsHeading(lines, m) && HeadingLevel(lines[m - 1]) == 2;
    HeadingsByText(lines, m);
    assert HeadingByText(lines, m, 2);
    forall m: int, j: nat | h < m <= n && 2 <= j <= k
      ensures !HeadingByText(lines, m, j)
    {
      HeadingsByText(lines, m);
    }
  }

  lemma NegatedAboveSilences(lines: seq<string>, negates: string -> bool, h: int, k: nat, n: nat)
    requires n <= |lines| && NegatedAbove(lines, negates, h, k, n)
    ensures Silenced(lines, negates, n)
  {
    HeadingsByText(lines, h);
    var m: int :| m < h && HeadingByText(lines, m, 2);
    HeadingsByText(lines, m);
    forall m | h < m <= n && IsHeading(lines, m)
      ensures k < HeadingLevel(lines[m - 1])
    {
      HeadingsByText(lines, m);
      HeadingsAreDeepEnough(lines, m);
      var j: nat := HeadingLevel(lines[m - 1]);
      assert HeadingByText(lines, m, j);
    }
    OpenNegatedSilences(lines, negates, h, n);
  }

  lemma OpenNegatedSilences(lines: seq<string>, negates: string -> bool, h: nat, n: nat)
    requires n <= |lines| && h < n && OpenThrough(lines, h, n) && SectionStarted(lines, h)
    requires HeadingLevel(lines[h - 1]) != 2 && negates(RStrip(lines[h - 1]))
    ensures Silenced(lines, negates, n)
  {
    StackIsExact(lines, negates, n);
    var o := Open(h, HeadingLevel(lines[h - 1]), true);
    assert StackHolds(lines, negates, n, o);
  }

  lemma {:induction false} RangeImpliesStack(
    lines: seq<string>, sections: seq<Section>, negates: string -> bool, i: nat, j: nat, n: nat)
    requires AreSections(lines, sections, negates) && i < |sections| && n <= |lines|
    requires j < |sections[i].subsections| && sections[i].subsections[j].negated
    requires sections[i].subsections[j].headingLine < n < sections[i].subsections[j].bodyEnd
    requires n < sections[i].bodyEnd
    ensures Silenced(lines, negates, n)
  {
    SectionHeadingLine(lines, sections, negates, i);
    SectionSubs(lines, sections, negates, i);
    SubsectionReaches(lines, sections, negates, i, j, n);
    var h := sections[i].subsections[j].headingLine;
    assert SectionStarted(lines, h);
    OpenNegatedSilences(lines, negates, h, n);
  }

  /** A negated heading open on a body line is a subheading of the section. */
  lemma {:induction false} OpenIsSubheading(
    lines: seq<string>, sections: seq<Section>, negates: string -> bool, i: nat, n: nat, o: Open)
    requires AreSections(lines, sections, negates) && i < |sections| && n <= |lines|
    requires sections[i].headingLine < n < sections[i].bodyEnd
    requires o in OpenHeadings(lines, negates, n) && o.line < n && o.negated
    ensures sections[i].headingLine < o.line && OpenThrough(lines, o.line, n) && negates(RStrip(lines[o.line - 1]))
  {
    SectionHeadingLine(lines, sections, negates, i);
    StackIsExact(lines, negates, n);
    assert StackHolds(lines, negates, n, o);
    HeadingsAreDeepEnough(lines, o.line);
  }

  lemma OpenSubsection(lines: seq<string>, sections: seq<Section>, negates: string -> bool, i: nat, n: nat, h: nat)
    returns (j: nat)
    requires AreSections(lines, sections, negates) && i < |sections|
    requires sections[i].headingLine < h < n < sections[i].bodyEnd && OpenThrough(lines, h, n)
    ensures j < |sections[i].subsections|
    ensures
      var b := sections[i].subsections[j];
      b.headingLine == h && n < b.bodyEnd && b.negated == negates(RStrip(lines[h - 1]))
  {
    j := SubsectionOf(lines, sections, negates, i, h);
    SubsectionReaches(lines, sections, negates, i, j, n);
  }

  lemma {:induction false} StackImpliesRange(
    lines: seq<string>, sections: seq<Section>, negates: string -> bool, i: nat, n: nat, o: Open)
    requires AreSections(lines, sections, negates) && i < |sections| && n <= |lines|
    requires sections[i].headingLine < n < sections[i].bodyEnd
    requires o in OpenHeadings(lines, negates, n) && o.line < n && o.negated
    ensures InNegatedSubsection(sections[i], n)
  {
    OpenIsSubheading(lines, sections, negates, i, n, o);
    var j := OpenSubsection(lines, sections, negates, i, n, o.line);
  }

  /** On every body line the subsection ranges and the stack of open headings agree. */
  lemma NegationAgreesWithStack(lines: seq<string>, sections: seq<Section>, negates: string -> bool, i: nat, n: nat)
    requires AreSections(lines, sections, negates) && i < |sections|
    requires sections[i].headingLine < n < sections[i].bodyEnd
    ensures n <= |lines|
    ensures InNegatedSubsection(sections[i], n) <==> Silenced(lines, negates, n)
  {
    var s := sections[i];
    SectionHeadingLine(lines, sections, negates, i);
    if InNegatedSubsection(s, n) {
      var j :| 0 <= j < |s.subsections| && s.subsections[j].headingLine < n < s.subsections[j].bodyEnd &&
          s.subsections[j].negated;
      RangeImpliesStack(lines, sections, negates, i, j, n);
    }
    if Silenced(lines, negates, n) {
      var o :| o in OpenHeadings(lines, negates, n) && o.line < n && o.negated;
      StackImpliesRange(lines, sections, negates, i, n, o);
    }
  }

  lemma HeadingsAreDeepEnough(lines: seq<string>, n: int)
    requires IsHeading(lines, n)
    ensures 2 <= HeadingLevel(lines[n - 1]) <= 4
  {
  }

  // ---- The two passes over the lines ----

  /** Index of the section holding a line, as `_section_for_line` finds it, or none. */
  method SectionForLine(sections: seq<Section>, n: nat) returns (i: nat, found: bool)
    ensures found <==> exists k :: 0 <= k < |sections| && Contains(sections[k], n)
    ensures found ==> i < |sections| && Contains(sections[i], n)
  {
    for k := 0 to |sections|
      invariant forall m | 0 <= m < k :: !Contains(sections[m], n)
    {
      if Contains(sections[k], n) {
        return k, true;
      }
    }
    return 0, false;
  }

  /** The lines one section's walk in `run_sweeps` gets to inspect. */
  method SweepSection(lines: seq<string>, sections: seq<Section>, ghost negates: string -> bool, i: nat)
    returns (swept: set<nat>)
    requires AreSections(lines, sections, negates) && i < |sections|
    ensures forall n: nat :: n in swept <==>
              sections[i].headingLine < n < sections[i].bodyEnd && n <= |lines| && Visible(lines, n) &&
                  !Silenced(lines, negates, n)
  {
    var section := sections[i];
    SectionHeadingLine(lines, sections, negates, i);
    swept := {};
    var inFence := false;
    for lineNo := section.headingLine + 1 to section.bodyEnd
      invariant inFence == FencedSince(lines, section.headingLine, lineNo - 1)
      invariant forall n: nat :: n in swept <==>
                  section.headingLine < n < lineNo && Visible(lines, n) && !Silenced(lines, negates, n)
    {
      var line := lines[lineNo - 1];
      FenceResetIsSound(lines, sections, negates, i, lineNo);
      NegationAgreesWithStack(lines, sections, negates, i, lineNo);
      if IsFence(line) {
        inFence := !inFence;
        continue;
      }
      if inFence {
        continue;
      }
      if InNegatedSubsection(section, lineNo) {
        continue;
      }
      swept := swept + {lineNo};
    }
  }

  /** The lines the whole-document FR-8 pass gets to inspect, before its per-line filters. */
  method SweepDocument(lines: seq<string>, sections: seq<Section>, ghost negates: string -> bool,
      excluded: string -> bool)
    returns (swept: set<nat>)
    requires AreSections(lines, sections, negates)
    ensures forall n: nat :: n in swept <==>
              && IsLine(lines, n) && Visible(lines, n)
              && (forall i | 0 <= i < |sections| && Contains(sections[i], n) :: !excluded(sections[i].heading))
              && !Silenced(lines, negates, n)
  {
    swept := {};
    var inFence := false;
    for lineNo := 1 to |lines| + 1
      invariant inFence == Fenced(lines, lineNo - 1)
      invariant forall n: nat :: n in swept <==>
                  && 1 <= n < lineNo && Visible(lines, n)
                  && (forall i | 0 <= i < |sections| && Contains(sections[i], n) :: !excluded(sections[i].heading))
                  && !Silenced(lines, negates, n)
    {
      var line := lines[lineNo - 1];
      if IsFence(line) {
        inFence := !inFence;
        continue;
      }
      if inFence {
        continue;
      }
      if exists i :: 0 <= i < |sections| && Contains(sections[i], lineNo) && excluded(sections[i].heading) {
        continue;
      }
      var i, found := SectionForLine(sections, lineNo);
      LineSilencing(lines, sections, negates, lineNo, i, found);
      if found && InNegatedSubsection(sections[i], lineNo) {
        continue;
      }
      swept := swept + {lineNo};
    }
  }

  lemma NothingOpenAbove(lines: seq<string>, negates: string -> bool, n: nat, o: Open)
    requires IsHeading(lines, n) && HeadingLevel(lines[n - 1]) == 2 && StackHolds(lines, negates, n, o)
    ensures n <= o.line
  {
    if o.line < n {
      HeadingsAreDeepEnough(lines, o.line);
    }
  }

  /** The FR-8 silencing test, including section heading lines and lines before any section. */
  lemma LineSilencing(lines: seq<string>, sections: seq<Section>, negates: string -> bool, n: nat, i: nat, found: bool)
    requires AreSections(lines, sections, negates) && IsLine(lines, n)
    requires found <==> exists k :: 0 <= k < |sections| && Contains(sections[k], n)
    requires found ==> i < |sections| && Contains(sections[i], n)
    ensures Silenced(lines, negates, n) <==> found && InNegatedSubsection(sections[i], n)
  {
    StackIsExact(lines, negates, n);
    SectionsTile(lines, sections, negates, n);
    if !found {
      assert !SectionStarted(lines, n);
      assert OpenHeadings(lines, negates, n) == [];
    } else if n == sections[i].headingLine {
      SectionHeadingLine(lines, sections, negates, i);
      SectionSubs(lines, sections, negates, i);
      forall o | o in OpenHeadings(lines, negates, n)
        ensures n <= o.line
      {
        assert StackHolds(lines, negates, n, o);
        NothingOpenAbove(lines, negates, n, o);
      }
    } else {
      NegationAgreesWithStack(lines, sections, negates, i, n);
    }
  }
}
