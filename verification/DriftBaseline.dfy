/**
 The baseline life cycle of the spec drift gate: classifying findings against
 the baseline, ageing entries out, the gate's verdict, and --refresh-baseline.

 Dates are day numbers. A filter predicate that is absent is "".
 */
module DriftBaseline {
  import opened Sorting

  const DEFAULT_AGEOUT_DAYS: int := 90

  datatype Level = FAIL | WARN

  /** What a finding and a baseline entry are matched by; line and origin are left out. */
  datatype Identity = Identity(spec: string, finding: string, symbol: string, kind: string)

  datatype Finding = Finding(
    spec: string, line: int, frCode: string, symbol: string, kind: string, message: string, level: Level)
  {
    function Id(): Identity { Identity(spec, frCode, symbol, kind) }
  }

  datatype Entry = Entry(
    spec: string, line: int, finding: string, symbol: string, kind: string, origin: string, added: int, ageout: int)
  {
    function Id(): Identity { Identity(spec, finding, symbol, kind) }
  }

  datatype Predicates = Predicates(origin: string, spec: string, finding: string, symbol: string)

  const NO_FILTER := Predicates("", "", "", "")

  predicate StringLeq(a: string, b: string) {
    a == "" || (b != "" && (a[0] < b[0] || (a[0] == b[0] && StringLeq(a[1..], b[1..]))))
  }

  /** What findings and entries are sorted by. */
  datatype Key = Key(spec: string, line: int, code: string, symbol: string)

  predicate KeyLeq(a: Key, b: Key) {
    if a.spec != b.spec then StringLeq(a.spec, b.spec)
    else if a.line != b.line then a.line < b.line
    else if a.code != b.code then StringLeq(a.code, b.code)
    else StringLeq(a.symbol, b.symbol)
  }

  predicate EntryLeq(a: Entry, b: Entry) {
    KeyLeq(Key(a.spec, a.line, a.finding, a.symbol), Key(b.spec, b.line, b.finding, b.symbol))
  }

  predicate FindingLeq(a: Finding, b: Finding) {
    KeyLeq(Key(a.spec, a.line, a.frCode, a.symbol), Key(b.spec, b.line, b.frCode, b.symbol))
  }

  lemma {:induction false} StringLeqTotal(a: string, b: string)
    ensures StringLeq(a, b) || StringLeq(b, a)
    ensures StringLeq(a, b) && StringLeq(b, a) ==> a == b
  {
    if a != "" && b != "" && a[0] == b[0] {
      StringLeqTotal(a[1..], b[1..]);
      assert a == [a[0]] + a[1..] && b == [b[0]] + b[1..];
    }
  }

  lemma {:induction false} StringLeqTransitive(a: string, b: string, c: string)
    requires StringLeq(a, b) && StringLeq(b, c)
    ensures StringLeq(a, c)
  {
    if a != "" && a[0] == b[0] == c[0] {
      StringLeqTransitive(a[1..], b[1..], c[1..]);
    }
  }

  lemma KeyLeqTotal(a: Key, b: Key)
    ensures KeyLeq(a, b) || KeyLeq(b, a)
  {
    StringLeqTotal(a.spec, b.spec);
    StringLeqTotal(a.code, b.code);
    StringLeqTotal(a.symbol, b.symbol);
  }

  /** Going up a step and coming back to the same string is standing still. */
  lemma StringsBetween(a: string, b: string, c: string)
    requires StringLeq(a, b) && StringLeq(b, c)
    ensures StringLeq(a, c) && (a == c ==> a == b)
  {
    StringLeqTransitive(a, b, c);
    StringLeqTotal(a, b);
  }

  lemma KeyLeqTransitive(a: Key, b: Key, c: Key)
    requires KeyLeq(a, b) && KeyLeq(b, c)
    ensures KeyLeq(a, c)
  {
    if a.spec != b.spec && b.spec != c.spec {
      StringsBetween(a.spec, b.spec, c.spec);
    } else if a.spec == b.spec == c.spec && a.line == b.line == c.line {
      if a.code != b.code && b.code != c.code {
        StringsBetween(a.code, b.code, c.code);
      } else if a.code == b.code == c.code {
        StringsBetween(a.symbol, b.symbol, c.symbol);
      }
    }
  }

  lemma SortKeysAreOrdered()
    ensures TotalPreorder(EntryLeq) && TotalPreorder(FindingLeq)
  {
    forall a: Key, b: Key
      ensures KeyLeq(a, b) || KeyLeq(b, a)
    {
      KeyLeqTotal(a, b);
    }
    forall a: Key, b: Key, c: Key | KeyLeq(a, b) && KeyLeq(b, c)
      ensures KeyLeq(a, c)
    {
      KeyLeqTransitive(a, b, c);
    }
  }

  /** a comes strictly before b: as a proper prefix, or by the first character that differs. */
  ghost predicate Before(a: string, b: string) {
    exists i :: FirstDifference(a, b, i)
  }

  predicate FirstDifference(a: string, b: string, i: int) {
    && 0 <= i <= |a| && i < |b|
    && (forall k | 0 <= k < i :: a[k] == b[k])
    && (i == |a| || a[i] < b[i])
  }

  lemma {:induction false} StringLeqIsLexicographic(a: string, b: string)
    ensures StringLeq(a, b) <==> a == b || Before(a, b)
  {
    if a == "" {
      assert b != "" ==> FirstDifference(a, b, 0);
    } else if b != "" && a[0] == b[0] {
      StringLeqIsLexicographic(a[1..], b[1..]);
      assert a == [a[0]] + a[1..] && b == [b[0]] + b[1..];
      if i :| FirstDifference(a[1..], b[1..], i) {
        assert forall k | 0 < k < i + 1 :: a[k] == a[1..][k - 1] && b[k] == b[1..][k - 1];
        assert FirstDifference(a, b, i + 1);
      }
      if i :| FirstDifference(a, b, i) {
        assert FirstDifference(a[1..], b[1..], i - 1);
      }
    } else if b != "" && a[0] < b[0] {
      assert FirstDifference(a, b, 0);
    }
  }

  /** Entries are ordered by spec, then line, then finding, then symbol. */
  lemma EntryOrder(a: Entry, b: Entry)
    ensures Before(a.spec, b.spec) ==> EntryLeq(a, b)
    ensures a.spec == b.spec && a.line < b.line ==> EntryLeq(a, b) && !EntryLeq(b, a)
    ensures a.spec == b.spec && a.line == b.line && Before(a.finding, b.finding) ==> EntryLeq(a, b)
    ensures a.spec == b.spec && a.line == b.line && a.finding == b.finding ==>
              (EntryLeq(a, b) <==> a.symbol == b.symbol || Before(a.symbol, b.symbol))
    ensures EntryLeq(a, b) && EntryLeq(b, a) ==>
              a.spec == b.spec && a.line == b.line && a.finding == b.finding && a.symbol == b.symbol
  {
    StringLeqIsLexicographic(a.spec, b.spec);
    StringLeqIsLexicographic(a.finding, b.finding);
    StringLeqIsLexicographic(a.symbol, b.symbol);
    StringLeqTotal(a.spec, b.spec);
    StringLeqTotal(a.finding, b.finding);
    StringLeqTotal(a.symbol, b.symbol);
  }

  /** Findings are ordered by the same four. */
  lemma FindingOrder(f: Finding, g: Finding, a: Entry, b: Entry)
    requires f.spec == a.spec && f.line == a.line && f.frCode == a.finding && f.symbol == a.symbol
    requires g.spec == b.spec && g.line == b.line && g.frCode == b.finding && g.symbol == b.symbol
    ensures FindingLeq(f, g) <==> EntryLeq(a, b)
  {
  }

  // ---- Identity, field by field ----

  /** The entry lists the finding: spec, finding code, symbol and kind agree. */
  predicate Lists(e: Entry, f: Finding) {
    e.spec == f.spec && e.finding == f.frCode && e.symbol == f.symbol && e.kind == f.kind
  }

  predicate SameDrift(a: Entry, b: Entry) {
    a.spec == b.spec && a.finding == b.finding && a.symbol == b.symbol && a.kind == b.kind
  }

  lemma IdentityIsFourFields()
    ensures forall e: Entry, f: Finding :: e.Id() == f.Id() <==> Lists(e, f)
    ensures forall a: Entry, b: Entry :: a.Id() == b.Id() <==> SameDrift(a, b)
  {
  }

  // ---- Classification ----

  datatype Age = Fresh | Expired | ExpiredTwice

  function AgeoutState(e: Entry, today: int, days: int): Age {
    var age := today - e.added;
    if age >= 2 * days then ExpiredTwice else if age >= days then Expired else Fresh
  }

  function EntryIds(entries: seq<Entry>): (ids: set<Identity>)
    ensures forall id :: id in ids <==> exists e :: e in entries && e.Id() == id
  {
    set e | e in entries :: e.Id()
  }

  function FindingIds(findings: seq<Finding>): (ids: set<Identity>)
    ensures forall id :: id in ids <==> exists f :: f in findings && f.Id() == id
  {
    set f | f in findings :: f.Id()
  }

  function Listed(ids: set<Identity>): Finding -> bool { (f: Finding) => f.Id() in ids }

  function Unlisted(ids: set<Identity>): Finding -> bool { (f: Finding) => f.Id() !in ids }

  function Present(ids: set<Identity>): Entry -> bool { (e: Entry) => e.Id() in ids }

  function Absent(ids: set<Identity>): Entry -> bool { (e: Entry) => e.Id() !in ids }

  function Aged(ids: set<Identity>, age: Age, today: int, days: int): Entry -> bool {
    (e: Entry) => e.Id() in ids && AgeoutState(e, today, days) == age
  }

  datatype DiffResult = DiffResult(
    newFindings: seq<Finding>,
    preExisting: seq<Finding>,
    resolved: seq<Entry>,
    expired: seq<Entry>,
    expiredTwice: seq<Entry>)

  function Diff(findings: seq<Finding>, baseline: seq<Entry>, today: int, days: int): DiffResult {
    var known, current := EntryIds(baseline), FindingIds(findings);
    DiffResult(
      Sort(FindingLeq, Filter(Unlisted(known), findings)),
      Sort(FindingLeq, Filter(Listed(known), findings)),
      Sort(EntryLeq, Filter(Absent(current), baseline)),
      Sort(EntryLeq, Filter(Aged(current, Expired, today, days), baseline)),
      Sort(EntryLeq, Filter(Aged(current, ExpiredTwice, today, days), baseline)))
  }

  /** `diff_findings`. */
  method DiffFindings(findings: seq<Finding>, baseline: seq<Entry>, today: int, days: int) returns (diff: DiffResult)
    ensures diff == Diff(findings, baseline, today, days)
    ensures Sorted(FindingLeq, diff.newFindings) && Sorted(FindingLeq, diff.preExisting)
    ensures Sorted(EntryLeq, diff.resolved) && Sorted(EntryLeq, diff.expired) && Sorted(EntryLeq, diff.expiredTwice)
  {
    var known, current := EntryIds(baseline), FindingIds(findings);
    var newFindings, preExisting := SplitFindings(findings, known);
    var resolved, expired, expiredTwice := SplitEntries(baseline, current, today, days);
    diff := DiffResult(
      Sort(FindingLeq, newFindings), Sort(FindingLeq, preExisting),
      Sort(EntryLeq, resolved), Sort(EntryLeq, expired), Sort(EntryLeq, expiredTwice));
    SortKeysAreOrdered();
    SortSorts(FindingLeq, newFindings);
    SortSorts(FindingLeq, preExisting);
    SortSorts(EntryLeq, resolved);
    SortSorts(EntryLeq, expired);
    SortSorts(EntryLeq, expiredTwice);
  }

  method SplitFindings(findings: seq<Finding>, known: set<Identity>)
    returns (newFindings: seq<Finding>, preExisting: seq<Finding>)
    ensures newFindings == Filter(Unlisted(known), findings)
    ensures preExisting == Filter(Listed(known), findings)
  {
    newFindings, preExisting := [], [];
    assert findings[0..] == findings;
    for i := 0 to |findings|
      invariant newFindings + Filter(Unlisted(known), findings[i..]) == Filter(Unlisted(known), findings)
      invariant preExisting + Filter(Listed(known), findings[i..]) == Filter(Listed(known), findings)
    {
      FilterRound(Unlisted(known), findings, i, newFindings);
      FilterRound(Listed(known), findings, i, preExisting);
      var f := findings[i];
      if f.Id() in known {
        preExisting := preExisting + [f];
      } else {
        newFindings := newFindings + [f];
      }
    }
    assert findings[|findings|..] == [];
  }

  method SplitEntries(baseline: seq<Entry>, current: set<Identity>, today: int, days: int)
    returns (resolved: seq<Entry>, expired: seq<Entry>, expiredTwice: seq<Entry>)
    ensures resolved == Filter(Absent(current), baseline)
    ensures expired == Filter(Aged(current, Expired, today, days), baseline)
    ensures expiredTwice == Filter(Aged(current, ExpiredTwice, today, days), baseline)
  {
    ghost var once, twice := Aged(current, Expired, today, days), Aged(current, ExpiredTwice, today, days);
    resolved, expired, expiredTwice := [], [], [];
    assert baseline[0..] == baseline;
    for i := 0 to |baseline|
      invariant resolved + Filter(Absent(current), baseline[i..]) == Filter(Absent(current), baseline)
      invariant expired + Filter(once, baseline[i..]) == Filter(once, baseline)
      invariant expiredTwice + Filter(twice, baseline[i..]) == Filter(twice, baseline)
    {
      FilterRound(Absent(current), baseline, i, resolved);
      FilterRound(once, baseline, i, expired);
      FilterRound(twice, baseline, i, expiredTwice);
      var b := baseline[i];
      if b.Id() !in current {
        resolved := resolved + [b];
        continue;
      }
      var ageDays := today - b.added;
      if ageDays >= 2 * days {
        expiredTwice := expiredTwice + [b];
      } else if ageDays >= days {
        expired := expired + [b];
      }
    }
    assert baseline[|baseline|..] == [];
  }

  lemma {:induction false} SortedMembers<T>(leq: (T, T) -> bool, p: T -> bool, s: seq<T>)
    ensures multiset(Sort(leq, Filter(p, s))) == multiset(Filter(p, s))
    ensures forall x :: x in Sort(leq, Filter(p, s)) <==> x in s && p(x)
  {
    SortPermutes(leq, Filter(p, s));
    FilterSubset(p, s);
    forall x
      ensures x in Sort(leq, Filter(p, s)) <==> x in Filter(p, s)
    {
      assert x in Sort(leq, Filter(p, s)) <==> x in multiset(Sort(leq, Filter(p, s)));
      assert x in Filter(p, s) <==> x in multiset(Filter(p, s));
    }
  }

  /** Every finding is either new or pre-existing, once for each occurrence. */
  lemma FindingsSplit(findings: seq<Finding>, baseline: seq<Entry>, today: int, days: int)
    ensures
      var d := Diff(findings, baseline, today, days);
      && multiset(d.newFindings) + multiset(d.preExisting) == multiset(findings)
      && (forall f :: f in d.preExisting <==> f in findings && exists e :: e in baseline && e.Id() == f.Id())
  {
    var known := EntryIds(baseline);
    SortedMembers(FindingLeq, Unlisted(known), findings);
    SortedMembers(FindingLeq, Listed(known), findings);
    FilterSplits(Unlisted(known), Listed(known), findings);
  }

  /** A finding is pre-existing exactly when some entry has its spec, code, symbol and kind. */
  lemma PreExistingExactly(findings: seq<Finding>, baseline: seq<Entry>, today: int, days: int, f: Finding)
    ensures
      var d := Diff(findings, baseline, today, days);
      && (f in d.preExisting <==> f in findings && exists e :: e in baseline && Lists(e, f))
      && (f in d.newFindings <==> f in findings && forall e | e in baseline :: !Lists(e, f))
  {
    IdentityIsFourFields();
    FindingsSplit(findings, baseline, today, days);
    SortedMembers(FindingLeq, Unlisted(EntryIds(baseline)), findings);
  }

  /** Every baseline entry is resolved, or still present and in one age class, as `ageout_state` says. */
  lemma {:induction false} EntriesSplit(findings: seq<Finding>, baseline: seq<Entry>, today: int, days: int)
    ensures
      var d := Diff(findings, baseline, today, days);
      var current := FindingIds(findings);
      && multiset(d.resolved) + multiset(Filter(Aged(current, Fresh, today, days), baseline))
         + multiset(d.expired) + multiset(d.expiredTwice) == multiset(baseline)
      && (forall e :: e in d.resolved <==> e in baseline && forall f | f in findings :: f.Id() != e.Id())
      && (forall e :: e in d.expired <==> e in baseline && e !in d.resolved && AgeoutState(e, today, days) == Expired)
      && (forall e :: e in d.expiredTwice <==>
          e in baseline && e !in d.resolved && AgeoutState(e, today, days) == ExpiredTwice)
  {
    var current := FindingIds(findings);
    SortedMembers(EntryLeq, Absent(current), baseline);
    SortedMembers(EntryLeq, Aged(current, Expired, today, days), baseline);
    SortedMembers(EntryLeq, Aged(current, ExpiredTwice, today, days), baseline);
    AgesSplit(current, baseline, today, days);
  }

  /** Which entries are resolved, expired and twice expired, by their fields and their age in days. */
  lemma EntryClassesExactly(findings: seq<Finding>, baseline: seq<Entry>, today: int, days: int, e: Entry)
    ensures
      var d := Diff(findings, baseline, today, days);
      var present := exists f :: f in findings && Lists(e, f);
      var age := today - e.added;
      && (e in d.resolved <==> e in baseline && !present)
      && (e in d.expired <==> e in baseline && present && days <= age < 2 * days)
      && (e in d.expiredTwice <==> e in baseline && present && 2 * days <= age)
  {
    IdentityIsFourFields();
    EntriesSplit(findings, baseline, today, days);
  }

  /** An entry of the baseline is in none of the returned lists exactly when a finding
      still has its identity and it is younger than the age-out period. */
  lemma UnclassifiedIff(findings: seq<Finding>, baseline: seq<Entry>, today: int, days: int, e: Entry)
    requires e in baseline
    ensures
      var d := Diff(findings, baseline, today, days);
      e !in d.resolved && e !in d.expired && e !in d.expiredTwice <==>
      (exists f :: f in findings && Lists(e, f)) && today - e.added < days && today - e.added < 2 * days
  {
    EntryClassesExactly(findings, baseline, today, days, e);
  }

  /** An entry added the day its finding appeared is in no list. */
  lemma FreshEntryIsInNoList(e: Entry, f: Finding)
    requires Lists(e, f)
    ensures
      var d := Diff([f], [e], e.added, DEFAULT_AGEOUT_DAYS);
      d.resolved == [] && d.expired == [] && d.expiredTwice == []
  {
    var d := Diff([f], [e], e.added, DEFAULT_AGEOUT_DAYS);
    EntriesSplit([f], [e], e.added, DEFAULT_AGEOUT_DAYS);
    assert f in [f];
    UnclassifiedIff([f], [e], e.added, DEFAULT_AGEOUT_DAYS, e);
    MembersOrEmpty(d.resolved);
    MembersOrEmpty(d.expired);
    MembersOrEmpty(d.expiredTwice);
  }

  lemma {:induction false} AgesSplit(current: set<Identity>, baseline: seq<Entry>, today: int, days: int)
    ensures
      multiset(Filter(Absent(current), baseline)) + multiset(Filter(Aged(current, Fresh, today, days), baseline))
      + multiset(Filter(Aged(current, Expired, today, days), baseline))
      + multiset(Filter(Aged(current, ExpiredTwice, today, days), baseline)) == multiset(baseline)
  {
    FourFiltersSplit(Absent(current), Aged(current, Fresh, today, days), Aged(current, Expired, today, days),
                     Aged(current, ExpiredTwice, today, days), baseline);
  }

  // ---- The gate's verdict ----

  function IsFail(): Finding -> bool { (f: Finding) => f.level == FAIL }

  function IsNotFail(): Finding -> bool { (f: Finding) => f.level != FAIL }

  function Forced(e: Entry): Finding {
    Finding(e.spec, e.line, e.finding, e.symbol, e.kind, "baseline entry past twice its ageout", FAIL)
  }

  lemma SortedAre<T>(leq: (T, T) -> bool, s: seq<T>)
    ensures forall x :: x in Sort(leq, s) <==> x in s
    ensures Sort(leq, s) == [] <==> s == []
  {
    SortPermutes(leq, s);
    forall x
      ensures x in Sort(leq, s) <==> x in s
    {
      assert x in Sort(leq, s) <==> x in multiset(Sort(leq, s));
      assert x in s <==> x in multiset(s);
    }
  }

  lemma MembersOrEmpty<T>(s: seq<T>)
    ensures s == [] <==> forall x :: x !in s
  {
    if s != [] {
      assert s[0] in s;
    }
  }

  /** The gate fails on a FAIL finding the baseline does not list, or on a listed one
      whose entry is at least two age-out periods old. */
  ghost predicate GateFails(findings: seq<Finding>, file: seq<Entry>, noBaseline: bool, today: int) {
    exists f :: f in findings && f.level == FAIL &&
      (noBaseline
       || (forall e | e in file :: e.Id() != f.Id())
       || (exists e :: e in file && e.Id() == f.Id() && 2 * DEFAULT_AGEOUT_DAYS <= today - e.added))
  }

  ghost predicate SomeFail(findings: seq<Finding>) {
    exists f :: f in findings && f.level == FAIL
  }

  lemma FailsOf(findings: seq<Finding>)
    ensures forall f :: f in Filter(IsFail(), findings) <==> f in findings && f.level == FAIL
    ensures forall f :: f in Filter(IsNotFail(), findings) <==> f in findings && f.level != FAIL
  {
    FilterSubset(IsFail(), findings);
    FilterSubset(IsNotFail(), findings);
  }

  lemma NewVerdict(fails: seq<Finding>, baseline: seq<Entry>, today: int, days: int)
    ensures
      Diff(fails, baseline, today, days).newFindings != [] <==>
      exists f :: f in fails && forall e | e in baseline :: e.Id() != f.Id()
  {
    var newFindings := Diff(fails, baseline, today, days).newFindings;
    SortedMembers(FindingLeq, Unlisted(EntryIds(baseline)), fails);
    MembersOrEmpty(newFindings);
    assert forall f :: f in newFindings <==> f in fails && forall e | e in baseline :: e.Id() != f.Id();
  }

  lemma TwiceMembers(fails: seq<Finding>, baseline: seq<Entry>, today: int, days: int, e: Entry)
    ensures
      e in Diff(fails, baseline, today, days).expiredTwice <==>
      e in baseline && e.Id() in FindingIds(fails) && 2 * days <= today - e.added
  {
    SortedMembers(EntryLeq, Aged(FindingIds(fails), ExpiredTwice, today, days), baseline);
  }

  lemma ExpiredTwiceVerdict(fails: seq<Finding>, baseline: seq<Entry>, today: int, days: int)
    ensures
      Diff(fails, baseline, today, days).expiredTwice != [] <==>
      exists f, e :: f in fails && e in baseline && e.Id() == f.Id() && 2 * days <= today - e.added
  {
    var twice := Diff(fails, baseline, today, days).expiredTwice;
    if twice != [] {
      TwiceMembers(fails, baseline, today, days, twice[0]);
      var f :| f in fails && f.Id() == twice[0].Id();
    }
    if f, e :| f in fails && e in baseline && e.Id() == f.Id() && 2 * days <= today - e.added {
      TwiceMembers(fails, baseline, today, days, e);
    }
  }

  lemma SurfacedVerdict(newFindings: seq<Finding>, forced: seq<Finding>, others: seq<Finding>)
    requires forall f | f in newFindings :: f.level == FAIL
    requires forall f | f in forced :: f.level == FAIL
    requires forall f | f in others :: f.level != FAIL
    ensures SomeFail(Sort(FindingLeq, newFindings + forced + others)) <==> newFindings != [] || forced != []
  {
    SortedAre(FindingLeq, newFindings + forced + others);
    if newFindings != [] {
      assert newFindings[0] in newFindings + forced + others;
    }
    if forced != [] {
      assert forced[0] in newFindings + forced + others;
    }
  }

  lemma {:induction false} DiffMatchesGate(all: seq<Finding>, baseline: seq<Entry>, today: int)
    ensures
      var d := Diff(Filter(IsFail(), all), baseline, today, DEFAULT_AGEOUT_DAYS);
      d.newFindings != [] || d.expiredTwice != [] <==> GateFails(all, baseline, false, today)
  {
    FailsOf(all);
    NewVerdict(Filter(IsFail(), all), baseline, today, DEFAULT_AGEOUT_DAYS);
    ExpiredTwiceVerdict(Filter(IsFail(), all), baseline, today, DEFAULT_AGEOUT_DAYS);
  }

  /** A finding is surfaced if it is no FAIL, or is one that no entry lists, or is forced by
      an entry that is still present and at least two age-out periods old. */
  ghost predicate Surfaces(f: Finding, all: seq<Finding>, baseline: seq<Entry>, today: int) {
    || (f in all && f.level == FAIL && forall e | e in baseline :: !Lists(e, f))
    || (f in all && f.level != FAIL)
    || exists e :: e in baseline && Forces(e, f, all, today)
  }

  /** A FAIL that the entry lists is still found, the entry is past twice its age-out, and f
      is the entry come back as a FAIL. */
  ghost predicate Forces(e: Entry, f: Finding, all: seq<Finding>, today: int) {
    && (exists g :: g in all && g.level == FAIL && Lists(e, g)) && 180 <= today - e.added
    && f == Forced(e) && f.level == FAIL && Lists(e, f) && f.line == e.line
  }

  function ForcedAll(entries: seq<Entry>): seq<Finding> {
    seq(|entries|, i requires 0 <= i < |entries| => Forced(entries[i]))
  }

  lemma ForcedMembers(entries: seq<Entry>, f: Finding)
    ensures f in ForcedAll(entries) <==> exists e :: e in entries && f == Forced(e)
  {
    if e :| e in entries && f == Forced(e) {
      var i :| 0 <= i < |entries| && entries[i] == e;
      assert ForcedAll(entries)[i] == f;
    }
  }

  lemma {:induction false} ForcedExactly(all: seq<Finding>, baseline: seq<Entry>, today: int, f: Finding)
    ensures
      f in ForcedAll(Diff(Filter(IsFail(), all), baseline, today, DEFAULT_AGEOUT_DAYS).expiredTwice) <==>
      exists e :: e in baseline && Forces(e, f, all, today)
  {
    var fails := Filter(IsFail(), all);
    var twice := Diff(fails, baseline, today, DEFAULT_AGEOUT_DAYS).expiredTwice;
    FailsOf(all);
    ForcedMembers(twice, f);
    forall e
      ensures e in twice && f == Forced(e) <==> e in baseline && Forces(e, f, all, today)
    {
      EntryClassesExactly(fails, baseline, today, DEFAULT_AGEOUT_DAYS, e);
    }
  }

  lemma GraceSurfaces(all: seq<Finding>, baseline: seq<Entry>, today: int, f: Finding)
    ensures
      var d := Diff(Filter(IsFail(), all), baseline, today, DEFAULT_AGEOUT_DAYS);
      f in Sort(FindingLeq, d.newFindings + ForcedAll(d.expiredTwice) + Filter(IsNotFail(), all)) <==>
      Surfaces(f, all, baseline, today)
  {
    var d := Diff(Filter(IsFail(), all), baseline, today, DEFAULT_AGEOUT_DAYS);
    FailsOf(all);
    PreExistingExactly(Filter(IsFail(), all), baseline, today, DEFAULT_AGEOUT_DAYS, f);
    ForcedExactly(all, baseline, today, f);
    SortedAre(FindingLeq, d.newFindings + ForcedAll(d.expiredTwice) + Filter(IsNotFail(), all));
  }

  /** Baseline grace: pre-existing FAIL findings drop out, entries two periods old come back as FAIL. */
  method ApplyGrace(all: seq<Finding>, baseline: seq<Entry>, today: int) returns (surfaced: seq<Finding>)
    ensures SomeFail(surfaced) <==> GateFails(all, baseline, false, today)
    ensures forall f :: f in surfaced <==> Surfaces(f, all, baseline, today)
    ensures Sorted(FindingLeq, surfaced)
  {
    var fails := Filter(IsFail(), all);
    var others := Filter(IsNotFail(), all);
    FailsOf(all);
    var diff := DiffFindings(fails, baseline, today, DEFAULT_AGEOUT_DAYS);
    SortedMembers(FindingLeq, Unlisted(EntryIds(baseline)), fails);
    var forced := ForcedAll(diff.expiredTwice);
    SurfacedVerdict(diff.newFindings, forced, others);
    DiffMatchesGate(all, baseline, today);
    surfaced := Sort(FindingLeq, diff.newFindings + forced + others);
    forall f
      ensures f in surfaced <==> Surfaces(f, all, baseline, today)
    {
      GraceSurfaces(all, baseline, today, f);
    }
    SortKeysAreOrdered();
    SortSorts(FindingLeq, diff.newFindings + forced + others);
  }

  /** The verdict by fields: a FAIL finding that no entry lists, or one listed by an entry
      added at least 180 days ago. */
  ghost predicate FailsByFields(findings: seq<Finding>, file: seq<Entry>, noBaseline: bool, today: int) {
    exists f :: f in findings && FailsOn(f, file, noBaseline, today)
  }

  ghost predicate FailsOn(f: Finding, file: seq<Entry>, noBaseline: bool, today: int) {
    && f.level == FAIL
    && (|| noBaseline
        || (forall e | e in file :: !Lists(e, f))
        || (exists e :: e in file && Lists(e, f) && 180 <= today - e.added))
  }

  lemma VerdictByFields(findings: seq<Finding>, file: seq<Entry>, noBaseline: bool, today: int)
    ensures GateFails(findings, file, noBaseline, today) <==> FailsByFields(findings, file, noBaseline, today)
  {
    IdentityIsFourFields();
  }

  lemma VerdictIgnoresOrder(a: seq<Finding>, b: seq<Finding>, file: seq<Entry>, file': seq<Entry>, noBaseline: bool,
      today: int)
    requires forall f :: f in a <==> f in b
    requires forall e :: e in file <==> e in file'
    ensures GateFails(a, file, noBaseline, today) <==> GateFails(b, file', noBaseline, today)
  {
  }

  /** `main` without --refresh-baseline, up to its exit code. */
  method Gate(findings: seq<Finding>, file: seq<Entry>, noBaseline: bool, today: int) returns (exitCode: int)
    ensures exitCode == if GateFails(findings, file, noBaseline, today) then 1 else 0
    ensures exitCode == if FailsByFields(findings, file, noBaseline, today) then 1 else 0
  {
    VerdictByFields(findings, file, noBaseline, today);
    var all := Sort(FindingLeq, findings);
    SortedAre(FindingLeq, findings);
    SortedAre(EntryLeq, file);
    VerdictIgnoresOrder(findings, all, file, Sort(EntryLeq, file), noBaseline, today);
    if !noBaseline {
      var baseline := Sort(EntryLeq, file);
      if baseline != [] {
        all := ApplyGrace(all, baseline, today);
      }
    }
    exitCode := if exists f :: f in all && f.level == FAIL then 1 else 0;
  }

  /** With findings and baseline fixed, a later date never turns a failure into a pass. */
  lemma VerdictIsMonotone(findings: seq<Finding>, file: seq<Entry>, noBaseline: bool, today: int, later: int)
    requires today <= later && GateFails(findings, file, noBaseline, today)
    ensures GateFails(findings, file, noBaseline, later)
  {
    var f :| f in findings && f.level == FAIL &&
      (noBaseline
       || (forall e | e in file :: e.Id() != f.Id())
       || (exists e :: e in file && e.Id() == f.Id() && 2 * DEFAULT_AGEOUT_DAYS <= today - e.added));
    if e :| e in file && e.Id() == f.Id() && 2 * DEFAULT_AGEOUT_DAYS <= today - e.added {
      assert 2 * DEFAULT_AGEOUT_DAYS <= later - e.added;
    }
  }

  function Bare(file: seq<Entry>): seq<Entry> {
    seq(|file|, i requires 0 <= i < |file| => file[i].(line := 0, origin := "", ageout := 0))
  }

  function BareFindings(findings: seq<Finding>): seq<Finding> {
    seq(|findings|, i requires 0 <= i < |findings| => findings[i].(line := 0, message := ""))
  }

  lemma BareFacts(a: seq<Entry>, b: seq<Entry>)
    requires Bare(a) == Bare(b)
    ensures forall e | e in a :: exists e' :: e' in b && SameDrift(e, e') && e'.added == e.added
  {
    assert |a| == |Bare(a)| == |b|;
    forall e | e in a
      ensures exists e' :: e' in b && SameDrift(e, e') && e'.added == e.added
    {
      var i :| 0 <= i < |a| && a[i] == e;
      assert Bare(a)[i] == Bare(b)[i] && b[i] in b;
    }
  }

  lemma BareFindingFacts(f: seq<Finding>, g: seq<Finding>, x: Finding) returns (y: Finding)
    requires BareFindings(f) == BareFindings(g) && x in f
    ensures y in g && y.(line := 0, message := "") == x.(line := 0, message := "")
  {
    assert |f| == |BareFindings(f)| == |g|;
    var i :| 0 <= i < |f| && f[i] == x;
    assert BareFindings(f)[i] == BareFindings(g)[i];
    y := g[i];
  }

  /** Lines, messages, origins and the entries' own `ageout` have no say: a failure stays one
      whatever they are. */
  lemma LineOriginAndAgeoutAreIgnored(
    f: seq<Finding>, g: seq<Finding>, a: seq<Entry>, b: seq<Entry>, noBaseline: bool, today: int)
    requires BareFindings(f) == BareFindings(g) && Bare(a) == Bare(b)
    ensures FailsByFields(f, a, noBaseline, today) ==> FailsByFields(g, b, noBaseline, today)
  {
    BareFacts(a, b);
    BareFacts(b, a);
    if x :| x in f && FailsOn(x, a, noBaseline, today) {
      var y := BareFindingFacts(f, g, x);
      assert FailsOn(y, b, noBaseline, today);
    }
  }

  // ---- --refresh-baseline ----

  /** `apply_filter` on one entry. */
  predicate Matches(p: Predicates, e: Entry) {
    && (p.origin == "" || e.origin == p.origin)
    && (p.spec == "" || e.spec == p.spec)
    && (p.finding == "" || e.finding == p.finding)
    && (p.symbol == "" || e.symbol == p.symbol)
  }

  function InScope(p: Predicates): Entry -> bool { (e: Entry) => Matches(p, e) }

  function OutOfScope(p: Predicates): Entry -> bool { (e: Entry) => !Matches(p, e) }

  datatype Refreshed = Refreshed(kept: seq<Entry>, untouched: seq<Entry>, resolved: seq<Entry>)
  {
    function File(): seq<Entry> { Sort(EntryLeq, kept + untouched) }
  }

  function Refresh(file: seq<Entry>, fails: seq<Finding>, p: Predicates): Refreshed {
    var baseline := Sort(EntryLeq, file);
    var scoped := Filter(InScope(p), baseline);
    var untouched := Filter(Absent(EntryIds(scoped)), baseline);
    var resolved := Sort(EntryLeq, Filter(Absent(FindingIds(fails)), scoped));
    Refreshed(Filter(Absent(EntryIds(resolved)), scoped), untouched, resolved)
  }

  /** The two JSONL files. */
  class BaselineFiles {
    var baseline: seq<Entry>
    var archive: seq<Entry>

    method RefreshBaseline(findings: seq<Finding>, p: Predicates, today: int)
      modifies this
      ensures
        var r := Refresh(old(baseline), Filter(IsFail(), findings), p);
        baseline == r.File() && archive == old(archive) + r.resolved && Sorted(EntryLeq, r.resolved)
      ensures Sorted(EntryLeq, baseline)
      ensures
        forall e :: e in baseline <==>
          && e in old(baseline)
          && if PassesFilter(e, p) then exists f :: f in findings && f.level == FAIL && Lists(e, f)
             else forall s | s in old(baseline) && PassesFilter(s, p) :: !SameDrift(s, e)
    {
      var entries := Sort(EntryLeq, baseline);
      var scoped, untouched := entries, [];
      if p != NO_FILTER {
        scoped := Filter(InScope(p), entries);
        untouched := Filter(Absent(EntryIds(scoped)), entries);
      } else {
        EverythingInScope(entries);
      }
      var fails := Filter(IsFail(), findings);
      var diff := DiffFindings(fails, scoped, today, DEFAULT_AGEOUT_DAYS);
      archive := archive + diff.resolved;
      var kept := Filter(Absent(EntryIds(diff.resolved)), scoped);
      RefreshedByFields(baseline, findings, p);
      baseline := Sort(EntryLeq, kept + untouched);
      SortKeysAreOrdered();
      SortSorts(EntryLeq, kept + untouched);
    }
  }

  lemma {:induction false} EverythingInScope(entries: seq<Entry>)
    ensures Filter(InScope(NO_FILTER), entries) == entries
    ensures Filter(Absent(EntryIds(entries)), entries) == []
  {
    FilterKeepsAll(InScope(NO_FILTER), entries);
    FilterKeepsAll(Absent(EntryIds(entries)), entries);
  }

  /** Dropped by a refresh: outside the filter, but sharing its identity with an entry inside it. */
  function Shadowed(p: Predicates, ids: set<Identity>): Entry -> bool { (e: Entry) => !Matches(p, e) && e.Id() in ids }

  function Dropped(file: seq<Entry>, p: Predicates): seq<Entry> {
    var baseline := Sort(EntryLeq, file);
    Filter(Shadowed(p, EntryIds(Filter(InScope(p), baseline))), baseline)
  }

  /** A refresh splits the scope by presence, and the rest by identity. */
  lemma {:induction false} RefreshMembers(file: seq<Entry>, fails: seq<Finding>, p: Predicates)
    ensures
      var r := Refresh(file, fails, p);
      && (forall e :: e in r.kept <==> e in file && Matches(p, e) && e.Id() in FindingIds(fails))
      && (forall e :: e in r.resolved <==> e in file && Matches(p, e) && e.Id() !in FindingIds(fails))
      && (forall e :: e in r.untouched <==> e in file && forall s | s in file && Matches(p, s) :: s.Id() != e.Id())
  {
    var baseline := Sort(EntryLeq, file);
    SortedAre(EntryLeq, file);
    var scoped := Filter(InScope(p), baseline);
    FilterSubset(InScope(p), baseline);
    FilterSubset(Absent(EntryIds(scoped)), baseline);
    SortedMembers(EntryLeq, Absent(FindingIds(fails)), scoped);
    var r := Refresh(file, fails, p);
    FilterSubset(Absent(EntryIds(r.resolved)), scoped);
  }

  /** The same by fields: the filter's four keys, each absent or equal, and the four fields of an identity. */
  lemma {:induction false} RefreshMembersByFields(file: seq<Entry>, findings: seq<Finding>, p: Predicates, e: Entry)
    ensures
      var r := Refresh(file, Filter(IsFail(), findings), p);
      var present := exists f :: f in findings && f.level == FAIL && Lists(e, f);
      && (e in r.kept <==> e in file && PassesFilter(e, p) && present)
      && (e in r.resolved <==> e in file && PassesFilter(e, p) && !present)
      && (e in r.untouched <==> e in file && forall s | s in file && PassesFilter(s, p) :: !SameDrift(s, e))
  {
    IdentityIsFourFields();
    FailsOf(findings);
    RefreshMembers(file, Filter(IsFail(), findings), p);
    assert forall x :: PassesFilter(x, p) <==> Matches(p, x);
  }

  /** Every key that the filter names has the entry's value. */
  predicate PassesFilter(e: Entry, p: Predicates) {
    && (p.origin != "" ==> p.origin == e.origin) && (p.spec != "" ==> p.spec == e.spec)
    && (p.finding != "" ==> p.finding == e.finding) && (p.symbol != "" ==> p.symbol == e.symbol)
  }

  lemma {:induction false} ScopeAccounts(scoped: seq<Entry>, current: set<Identity>)
    ensures
      var resolved := Sort(EntryLeq, Filter(Absent(current), scoped));
      multiset(Filter(Absent(EntryIds(resolved)), scoped)) + multiset(resolved) == multiset(scoped)
  {
    var resolved := Sort(EntryLeq, Filter(Absent(current), scoped));
    SortedMembers(EntryLeq, Absent(current), scoped);
    FilterSplits(Absent(EntryIds(resolved)), Absent(current), scoped);
  }

  lemma OutsideAccounts(baseline: seq<Entry>, p: Predicates)
    ensures
      var keys := EntryIds(Filter(InScope(p), baseline));
      multiset(Filter(Absent(keys), baseline)) + multiset(Filter(Shadowed(p, keys), baseline))
      == multiset(Filter(OutOfScope(p), baseline))
  {
    var outside := Filter(OutOfScope(p), baseline);
    var keys := EntryIds(Filter(InScope(p), baseline));
    FilterSubset(InScope(p), baseline);
    FilterSplits(Absent(keys), Present(keys), outside);
    FilterWithin(Absent(keys), OutOfScope(p), Absent(keys), baseline);
    FilterWithin(Present(keys), OutOfScope(p), Shadowed(p, keys), baseline);
  }

  /** Kept, untouched, archived and dropped entries are exactly the old baseline. */
  lemma RefreshAccounts(file: seq<Entry>, fails: seq<Finding>, p: Predicates)
    ensures
      var r := Refresh(file, fails, p);
      multiset(r.kept) + multiset(r.untouched) + multiset(r.resolved) + multiset(Dropped(file, p)) == multiset(file)
  {
    var baseline := Sort(EntryLeq, file);
    SortPermutes(EntryLeq, file);
    FilterSplits(InScope(p), OutOfScope(p), baseline);
    ScopeAccounts(Filter(InScope(p), baseline), FindingIds(fails));
    OutsideAccounts(baseline, p);
  }

  /** No entry outside the filter shares its identity with one inside it. */
  ghost predicate ScopeIsClosed(file: seq<Entry>, p: Predicates) {
    forall a, b | a in file && b in file && Matches(p, a) && a.Id() == b.Id() :: Matches(p, b)
  }

  /** A refresh conserves the baseline exactly when the filter's scope is closed under identity. */
  lemma RefreshConservesIff(file: seq<Entry>, fails: seq<Finding>, p: Predicates)
    ensures
      var r := Refresh(file, fails, p);
      multiset(r.kept) + multiset(r.untouched) + multiset(r.resolved) == multiset(file) <==> ScopeIsClosed(file, p)
  {
    var r := Refresh(file, fails, p);
    RefreshAccounts(file, fails, p);
    var dropped := Dropped(file, p);
    DroppedMembers(file, p);
    MembersOrEmpty(dropped);
    Cancel(multiset(r.kept) + multiset(r.untouched) + multiset(r.resolved), multiset(dropped), multiset(file));
    assert |dropped| == |multiset(dropped)|;
  }

  lemma Cancel<T>(a: multiset<T>, d: multiset<T>, whole: multiset<T>)
    requires a + d == whole
    ensures a == whole <==> d == multiset{}
  {
    if a == whole {
      forall x
        ensures d[x] == 0
      {
        assert (a + d)[x] == a[x] + d[x];
      }
    }
  }

  lemma DroppedMembers(file: seq<Entry>, p: Predicates)
    ensures forall e :: e in Dropped(file, p) <==>
              e in file && !Matches(p, e) && exists s :: s in file && Matches(p, s) && s.Id() == e.Id()
  {
    var baseline := Sort(EntryLeq, file);
    SortedAre(EntryLeq, file);
    FilterSubset(InScope(p), baseline);
    FilterSubset(Shadowed(p, EntryIds(Filter(InScope(p), baseline))), baseline);
  }

  /** The scope is closed whenever the filter leaves origin out, or identities are unique. */
  lemma RefreshConserves(file: seq<Entry>, fails: seq<Finding>, p: Predicates)
    requires p.origin == "" || IdentitiesAreUnique(file)
    ensures
      var r := Refresh(file, fails, p);
      multiset(r.kept) + multiset(r.untouched) + multiset(r.resolved) == multiset(file)
  {
    RefreshConservesIff(file, fails, p);
  }

  /** An origin filter over two entries of one identity drops the other origin's entry unarchived. */
  lemma OriginFilterDropsEntry(a: Entry, b: Entry, fails: seq<Finding>)
    requires SameDrift(a, b) && a.origin != "" && a.origin != b.origin
    ensures
      var r := Refresh([a, b], fails, Predicates(a.origin, "", "", ""));
      b !in r.kept && b !in r.untouched && b !in r.resolved
  {
    RefreshMembers([a, b], fails, Predicates(a.origin, "", "", ""));
    assert a in [a, b] && Matches(Predicates(a.origin, "", "", ""), a);
  }

  lemma RefreshedMembers(file: seq<Entry>, fails: seq<Finding>, p: Predicates)
    ensures
      forall e :: e in Refresh(file, fails, p).File() <==>
        e in file &&
        (if Matches(p, e) then e.Id() in FindingIds(fails)
         else forall s | s in file && Matches(p, s) :: s.Id() != e.Id())
  {
    var r := Refresh(file, fails, p);
    RefreshMembers(file, fails, p);
    SortedAre(EntryLeq, r.kept + r.untouched);
  }

  lemma RefreshedByFields(file: seq<Entry>, findings: seq<Finding>, p: Predicates)
    ensures
      forall e :: e in Refresh(file, Filter(IsFail(), findings), p).File() <==>
        && e in file
        && if PassesFilter(e, p) then exists f :: f in findings && f.level == FAIL && Lists(e, f)
           else forall s | s in file && PassesFilter(s, p) :: !SameDrift(s, e)
  {
    IdentityIsFourFields();
    FailsOf(findings);
    RefreshedMembers(file, Filter(IsFail(), findings), p);
    assert forall x :: PassesFilter(x, p) <==> Matches(p, x);
  }

  /** A refresh never turns a pass into a failure, and with a closed scope it leaves the verdict alone. */
  lemma {:induction false} RefreshKeepsVerdict(findings: seq<Finding>, file: seq<Entry>, p: Predicates, today: int)
    ensures
      var next := Refresh(file, Filter(IsFail(), findings), p).File();
      && (GateFails(findings, next, false, today) ==> GateFails(findings, file, false, today))
      && (ScopeIsClosed(file, p) && GateFails(findings, file, false, today) ==> GateFails(findings, next, false, today))
  {
    var fails := Filter(IsFail(), findings);
    var next := Refresh(file, fails, p).File();
    RefreshedMembers(file, fails, p);
    FailsOf(findings);
    forall f | f in findings && f.level == FAIL
      ensures (exists e :: e in file && e.Id() == f.Id()) <==> (exists e :: e in next && e.Id() == f.Id())
      ensures ScopeIsClosed(file, p) ==> forall e | e in file && e.Id() == f.Id() :: e in next
    {
      PresentIdentityStays(f, file, fails, p);
    }
  }

  /** The identity of a finding that is still there is never refreshed away. */
  lemma PresentIdentityStays(f: Finding, file: seq<Entry>, fails: seq<Finding>, p: Predicates)
    requires f in fails
    ensures
      var next := Refresh(file, fails, p).File();
      && ((exists e :: e in file && e.Id() == f.Id()) <==> (exists e :: e in next && e.Id() == f.Id()))
      && (ScopeIsClosed(file, p) ==> forall e | e in file && e.Id() == f.Id() :: e in next)
  {
    var next := Refresh(file, fails, p).File();
    RefreshedMembers(file, fails, p);
    if e :| e in file && e.Id() == f.Id() {
      if s :| s in file && Matches(p, s) && s.Id() == f.Id() {
        assert s in next;
      } else {
        assert e in next;
      }
    }
  }

  lemma {:induction false} NothingLeftToRefresh(file: seq<Entry>, fails: seq<Finding>, p: Predicates)
    ensures
      var next := Refresh(file, fails, p).File();
      Refresh(next, fails, p).resolved == [] && Dropped(next, p) == []
  {
    var next := Refresh(file, fails, p).File();
    RefreshedMembers(file, fails, p);
    RefreshMembers(next, fails, p);
    DroppedMembers(next, p);
    MembersOrEmpty(Refresh(next, fails, p).resolved);
    MembersOrEmpty(Dropped(next, p));
  }

  /** The parts of a refreshed file stand in file order already, each on its side of the filter. */
  lemma RefreshedParts(file: seq<Entry>, fails: seq<Finding>, p: Predicates)
    ensures
      var r := Refresh(file, fails, p);
      && Sorted(EntryLeq, r.kept) && Sorted(EntryLeq, r.untouched)
      && (forall e | e in r.kept :: Matches(p, e)) && (forall e | e in r.untouched :: !Matches(p, e))
  {
    var r := Refresh(file, fails, p);
    RefreshMembers(file, fails, p);
    SortKeysAreOrdered();
    var scoped := Filter(InScope(p), file);
    FilterSort(EntryLeq, InScope(p), file);
    FilterSort(EntryLeq, Absent(EntryIds(r.resolved)), scoped);
    SortSorts(EntryLeq, Filter(Absent(EntryIds(r.resolved)), scoped));
    var keys := EntryIds(Filter(InScope(p), Sort(EntryLeq, file)));
    FilterSort(EntryLeq, Absent(keys), file);
    SortSorts(EntryLeq, Filter(Absent(keys), file));
  }

  /** Filtering the refreshed file by its scope takes it apart again. */
  lemma RefreshedFileSplits(file: seq<Entry>, fails: seq<Finding>, p: Predicates)
    ensures
      var r := Refresh(file, fails, p);
      Filter(InScope(p), r.File()) == r.kept && Filter(OutOfScope(p), r.File()) == r.untouched
  {
    var r := Refresh(file, fails, p);
    RefreshedParts(file, fails, p);
    SortKeysAreOrdered();
    FilterSort(EntryLeq, InScope(p), r.kept + r.untouched);
    FilterSort(EntryLeq, OutOfScope(p), r.kept + r.untouched);
    FilterConcat(InScope(p), r.kept, r.untouched);
    FilterConcat(OutOfScope(p), r.kept, r.untouched);
    FilterKeepsAll(InScope(p), r.kept);
    FilterKeepsAll(InScope(p), r.untouched);
    FilterKeepsAll(OutOfScope(p), r.kept);
    FilterKeepsAll(OutOfScope(p), r.untouched);
    assert r.kept + [] == r.kept && [] + r.untouched == r.untouched;
    SortKeepsSorted(EntryLeq, r.kept);
    SortKeepsSorted(EntryLeq, r.untouched);
  }

  /** Refreshing again with the same findings and filter archives nothing and writes the same file. */
  lemma {:induction false} RefreshIsIdempotent(file: seq<Entry>, fails: seq<Finding>, p: Predicates)
    ensures
      var once := Refresh(file, fails, p);
      var twice := Refresh(once.File(), fails, p);
      twice.resolved == [] && twice.File() == once.File() && Sorted(EntryLeq, once.File())
  {
    var once := Refresh(file, fails, p);
    var next := once.File();
    var twice := Refresh(next, fails, p);
    NothingLeftToRefresh(file, fails, p);
    RefreshedFileSplits(file, fails, p);
    SortKeysAreOrdered();
    SortSorts(EntryLeq, once.kept + once.untouched);
    SortKeepsSorted(EntryLeq, next);
    FilterKeepsAll(Absent(EntryIds(twice.resolved)), once.kept);
    UntouchedIsOutOfScope(next, p);
  }

  lemma {:induction false} UntouchedIsOutOfScope(baseline: seq<Entry>, p: Predicates)
    requires Sorted(EntryLeq, baseline) && Dropped(baseline, p) == []
    ensures Filter(Absent(EntryIds(Filter(InScope(p), baseline))), baseline) == Filter(OutOfScope(p), baseline)
  {
    SortKeepsSorted(EntryLeq, baseline);
    DroppedMembers(baseline, p);
    FilterSubset(InScope(p), baseline);
    var keys := EntryIds(Filter(InScope(p), baseline));
    forall e | e in baseline
      ensures Absent(keys)(e) == OutOfScope(p)(e)
    {
      if Matches(p, e) {
        assert e in Filter(InScope(p), baseline);
      } else {
        assert e !in Dropped(baseline, p);
      }
    }
    FilterCongruence(Absent(keys), OutOfScope(p), baseline);
  }

  // ---- Any number of refreshes ----

  /** One `--refresh-baseline` invocation: what the sweep found, and the filter given. */
  datatype Invocation = Invocation(findings: seq<Finding>, predicates: Predicates)

  datatype Files = Files(baseline: seq<Entry>, archive: seq<Entry>)

  function RefreshOnce(files: Files, i: Invocation): Files {
    var r := Refresh(files.baseline, Filter(IsFail(), i.findings), i.predicates);
    Files(r.File(), files.archive + r.resolved)
  }

  function RefreshAll(files: Files, session: seq<Invocation>): Files
    decreases |session|
  {
    if session == [] then files else RefreshAll(RefreshOnce(files, session[0]), session[1..])
  }

  /** What the refreshes of a session drop, one after the other. */
  function DroppedOver(files: Files, session: seq<Invocation>): seq<Entry>
    decreases |session|
  {
    if session == [] then []
    else
      Dropped(files.baseline, session[0].predicates) + DroppedOver(RefreshOnce(files, session[0]), session[1..])
  }

  ghost predicate ScopesStayClosed(files: Files, session: seq<Invocation>)
    decreases |session|
  {
    session != [] ==>
      && ScopeIsClosed(files.baseline, session[0].predicates)
      && ScopesStayClosed(RefreshOnce(files, session[0]), session[1..])
  }

  function Holdings(files: Files): multiset<Entry> {
    multiset(files.baseline) + multiset(files.archive)
  }

  lemma {:induction false} RefreshOnceAccounts(files: Files, i: Invocation)
    ensures Holdings(RefreshOnce(files, i)) + multiset(Dropped(files.baseline, i.predicates)) == Holdings(files)
    ensures Dropped(files.baseline, i.predicates) == [] <==> ScopeIsClosed(files.baseline, i.predicates)
  {
    var fails := Filter(IsFail(), i.findings);
    var r := Refresh(files.baseline, fails, i.predicates);
    RefreshAccounts(files.baseline, fails, i.predicates);
    SortPermutes(EntryLeq, r.kept + r.untouched);
    DroppedMembers(files.baseline, i.predicates);
    MembersOrEmpty(Dropped(files.baseline, i.predicates));
  }

  /** Over a whole session of refreshes, with findings and filters changing, the baseline,
      the archive and the dropped entries are exactly what baseline and archive were. */
  lemma {:induction false} SessionAccounts(files: Files, session: seq<Invocation>)
    ensures Holdings(RefreshAll(files, session)) + multiset(DroppedOver(files, session)) == Holdings(files)
    ensures DroppedOver(files, session) == [] <==> ScopesStayClosed(files, session)
    decreases |session|
  {
    if session == [] {
      assert multiset(DroppedOver(files, session)) == multiset{};
    } else {
      var i, rest := session[0], session[1..];
      var next := RefreshOnce(files, i);
      RefreshOnceAccounts(files, i);
      SessionAccounts(next, rest);
      DropsAdd(Dropped(files.baseline, i.predicates), DroppedOver(next, rest));
      RegroupDrops(Holdings(RefreshAll(next, rest)), multiset(Dropped(files.baseline, i.predicates)),
        multiset(DroppedOver(next, rest)));
    }
  }

  lemma DropsAdd(a: seq<Entry>, b: seq<Entry>)
    ensures multiset(a + b) == multiset(a) + multiset(b)
    ensures a + b == [] <==> a == [] && b == []
  {
    assert a + b == [] ==> |a + b| == |a| + |b| == 0;
  }

  lemma RegroupDrops<T>(kept: multiset<T>, now: multiset<T>, later: multiset<T>)
    ensures kept + (now + later) == (kept + later) + now
  {
  }

  /** A session conserves the entries exactly when every filter's scope is closed at its turn. */
  lemma {:induction false} SessionConservesIff(files: Files, session: seq<Invocation>)
    ensures Holdings(RefreshAll(files, session)) == Holdings(files) <==> ScopesStayClosed(files, session)
  {
    SessionAccounts(files, session);
    var dropped := DroppedOver(files, session);
    Cancel(Holdings(RefreshAll(files, session)), multiset(dropped), Holdings(files));
    assert |dropped| == |multiset(dropped)|;
  }

  ghost predicate IdentitiesAreUnique(file: seq<Entry>) {
    forall a, b | a in file && b in file && a.Id() == b.Id() :: a == b
  }

  lemma {:induction false} ScopesAreClosed(files: Files, session: seq<Invocation>)
    requires IdentitiesAreUnique(files.baseline) || forall i | i in session :: i.predicates.origin == ""
    ensures ScopesStayClosed(files, session)
    decreases |session|
  {
    if session != [] {
      assert session[0] in session;
      RefreshedMembers(files.baseline, Filter(IsFail(), session[0].findings), session[0].predicates);
      ScopesAreClosed(RefreshOnce(files, session[0]), session[1..]);
    }
  }

  /** It conserves them whenever no filter names an origin, or identities were unique at the start. */
  lemma {:induction false} SessionConserves(files: Files, session: seq<Invocation>)
    requires IdentitiesAreUnique(files.baseline) || forall i | i in session :: i.predicates.origin == ""
    ensures Holdings(RefreshAll(files, session)) == Holdings(files)
  {
    ScopesAreClosed(files, session);
    SessionConservesIff(files, session);
  }
}
