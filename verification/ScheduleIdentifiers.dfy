/**
 The starter-script identifiers of the schedule migration: a task name becomes an
 identifier, and a numeric suffix search keeps the identifiers apart. Word
 characters are the ASCII ones.
 */
module ScheduleIdentifiers {
  import opened Strings

  predicate IsWord(c: char) {
    'a' <= c <= 'z' || 'A' <= c <= 'Z' || IsDigit(c) || c == '_'
  }

  /** Replaces every maximal run of non-word characters by one underscore. */
  function Collapse(s: string, inRun: bool): string {
    if s == "" then ""
    else if IsWord(s[0]) then [s[0]] + Collapse(s[1..], false)
    else (if inRun then "" else "_") + Collapse(s[1..], true)
  }

  function StripLeft(s: string): string {
    if s != "" && s[0] == '_' then StripLeft(s[1..]) else s
  }

  function StripRight(s: string): string {
    if s != "" && s[|s| - 1] == '_' then StripRight(s[..|s| - 1]) else s
  }

  /** `_safe_identifier`. */
  function SafeIdentifier(name: string): string {
    var stripped := StripRight(StripLeft(Collapse(name, false)));
    var ident := if stripped == "" then "task" else stripped;
    if IsDigit(ident[0]) then "t_" + ident else ident
  }

  predicate AllWord(s: string) {
    forall i | 0 <= i < |s| :: IsWord(s[i])
  }

  predicate IsIdentifier(s: string) {
    s != "" && AllWord(s) && !IsDigit(s[0])
  }

  lemma {:induction false} CollapseIsWord(s: string, inRun: bool)
    ensures AllWord(Collapse(s, inRun))
  {
    if s != "" {
      CollapseIsWord(s[1..], !IsWord(s[0]));
    }
  }

  lemma {:induction false} StripLeftIsWord(s: string)
    requires AllWord(s)
    ensures AllWord(StripLeft(s))
  {
    if s != "" && s[0] == '_' {
      StripLeftIsWord(s[1..]);
    }
  }

  lemma {:induction false} StripRightIsWord(s: string)
    requires AllWord(s)
    ensures AllWord(StripRight(s))
  {
    if s != "" && s[|s| - 1] == '_' {
      StripRightIsWord(s[..|s| - 1]);
    }
  }

  /** The result is an identifier for every name, the empty one included. */
  lemma SafeIdentifierIsIdentifier(name: string)
    ensures IsIdentifier(SafeIdentifier(name))
    ensures
      var s := SafeIdentifier(name);
      s != "" && !(48 <= s[0] as int <= 57) && forall i | 0 <= i < |s| :: IsWordCode(s[i])
  {
    CollapseIsWord(name, false);
    StripLeftIsWord(Collapse(name, false));
    StripRightIsWord(StripLeft(Collapse(name, false)));
  }

  predicate NoEdgeUnderscore(s: string) {
    s != "" ==> s[0] != '_' && s[|s| - 1] != '_'
  }

  lemma {:induction false} CollapseKeepsWords(s: string)
    requires AllWord(s)
    ensures Collapse(s, false) == s
  {
    if s != "" {
      CollapseKeepsWords(s[1..]);
    }
  }

  lemma {:induction false} StripLeftResult(s: string)
    ensures StripLeft(s) == "" || StripLeft(s)[0] != '_'
  {
    if s != "" && s[0] == '_' {
      StripLeftResult(s[1..]);
    }
  }

  lemma {:induction false} StripRightResult(s: string)
    ensures StripRight(s) <= s
    ensures StripRight(s) == "" || StripRight(s)[|StripRight(s)| - 1] != '_'
  {
    if s != "" && s[|s| - 1] == '_' {
      StripRightResult(s[..|s| - 1]);
    }
  }

  /** An identifier without underscores at its ends is left as it is. */
  lemma SafeIdentifierKeepsIdentifiers(name: string)
    requires IsIdentifier(name) && NoEdgeUnderscore(name)
    ensures SafeIdentifier(name) == name
  {
    CollapseKeepsWords(name);
  }

  // ---- What sanitising does to the characters ----

  /** A letter, a digit or an underscore, by code. */
  predicate IsWordCode(c: char) {
    48 <= c as int <= 57 || 65 <= c as int <= 90 || c as int == 95 || 97 <= c as int <= 122
  }

  lemma WordCodes(c: char)
    ensures IsWord(c) <==> IsWordCode(c)
  {
  }

  predicate NoneIsWord(s: string) {
    forall i | 0 <= i < |s| :: !IsWordCode(s[i])
  }

  lemma {:induction false} RunVanishes(run: string, rest: string)
    requires NoneIsWord(run)
    ensures Collapse(run + rest, true) == Collapse(rest, true)
  {
    if run == "" {
      assert run + rest == rest;
    } else {
      assert (run + rest)[1..] == run[1..] + rest;
      RunVanishes(run[1..], rest);
    }
  }

  /** Word characters stay, and each maximal run of other characters becomes one underscore. */
  lemma {:induction false} RunBecomesUnderscore(word: string, run: string, rest: string)
    requires (forall i | 0 <= i < |word| :: IsWordCode(word[i])) && run != "" && NoneIsWord(run)
    requires rest == "" || IsWordCode(rest[0])
    ensures Collapse(word + run + rest, false) == word + "_" + Collapse(rest, false)
  {
    var t := word + run + rest;
    if word == "" {
      assert t == run + rest && t[1..] == run[1..] + rest;
      RunVanishes(run[1..], rest);
      assert Collapse(rest, true) == Collapse(rest, false);
    } else {
      assert t[0] == word[0] && t[1..] == word[1..] + run + rest;
      RunBecomesUnderscore(word[1..], run, rest);
      assert word == [word[0]] + word[1..];
    }
  }

  predicate Underscores(s: string) {
    forall i | 0 <= i < |s| :: s[i] == '_'
  }

  lemma {:induction false} StripLeftOf(left: string, core: string)
    requires Underscores(left) && (core == "" || core[0] != '_')
    ensures StripLeft(left + core) == core
  {
    if left == "" {
      assert left + core == core;
    } else {
      assert (left + core)[1..] == left[1..] + core;
      StripLeftOf(left[1..], core);
    }
  }

  lemma {:induction false} StripRightOf(core: string, right: string)
    requires Underscores(right) && (core == "" || core[|core| - 1] != '_')
    ensures StripRight(core + right) == core
  {
    if right == "" {
      assert core + right == core;
    } else {
      var t := core + right;
      assert t[..|t| - 1] == core + right[..|right| - 1];
      StripRightOf(core, right[..|right| - 1]);
    }
  }

  /** Once runs are collapsed, the underscores at both ends go; nothing left gives "task",
      and a leading digit is put behind "t_". */
  lemma SafeIdentifierTrims(name: string, left: string, core: string, right: string)
    requires Collapse(name, false) == left + core + right && Underscores(left) && Underscores(right)
    requires core == "" ==> right == ""
    requires NoEdgeUnderscore(core)
    ensures
      SafeIdentifier(name) ==
      if core == "" then "task" else if 48 <= core[0] as int <= 57 then "t_" + core else core
  {
    assert left + core + right == left + (core + right);
    StripLeftOf(left, core + right);
    StripRightOf(core, right);
  }

  /** A name without letters and digits becomes "task". */
  lemma NamelessBecomesTask(name: string)
    requires forall i | 0 <= i < |name| :: !IsWordCode(name[i]) || name[i] == '_'
    ensures SafeIdentifier(name) == "task"
  {
    CollapseOnlyUnderscores(name, false);
    var c := Collapse(name, false);
    assert c == c + "" + "";
    SafeIdentifierTrims(name, c, "", "");
  }

  lemma {:induction false} CollapseOnlyUnderscores(s: string, inRun: bool)
    requires forall i | 0 <= i < |s| :: !IsWordCode(s[i]) || s[i] == '_'
    ensures Underscores(Collapse(s, inRun))
  {
    if s != "" {
      CollapseOnlyUnderscores(s[1..], !IsWord(s[0]));
    }
  }

  /** Sanitising an identifier again changes nothing. */
  lemma SafeIdentifierIsIdempotent(name: string)
    ensures SafeIdentifier(SafeIdentifier(name)) == SafeIdentifier(name)
  {
    SafeIdentifierIsIdentifier(name);
    var inner := StripLeft(Collapse(name, false));
    StripLeftResult(Collapse(name, false));
    StripRightResult(inner);
    var stripped := StripRight(inner);
    assert stripped != "" ==> stripped[0] == inner[0];
    SafeIdentifierKeepsIdentifiers(SafeIdentifier(name));
  }

  // ---- The suffix search ----

  /** The k-th name tried for a base: the base itself, then base_2, base_3 and so on. */
  function Candidate(base: string, k: nat): string {
    if k < 2 then base else base + "_" + PrintNat(k)
  }

  lemma CandidatesDiffer(base: string, j: nat, k: nat)
    requires 1 <= j < k
    ensures Candidate(base, j) != Candidate(base, k)
  {
    ParsePrint(j);
    ParsePrint(k);
    var b := Candidate(base, k);
    assert b[|base|] == '_' && b[|base| + 1..] == PrintNat(k);
    if 2 <= j {
      var a := Candidate(base, j);
      assert a[|base| + 1..] == PrintNat(j);
    }
  }

  function Tried(base: string, k: nat): set<string> {
    if k <= 1 then {} else Tried(base, k - 1) + {Candidate(base, k - 1)}
  }

  lemma {:induction false} TriedMembers(base: string, k: nat, c: string)
    requires c in Tried(base, k)
    ensures exists j: nat :: 1 <= j < k && c == Candidate(base, j)
  {
    if c != Candidate(base, k - 1) {
      TriedMembers(base, k - 1, c);
    }
  }

  lemma {:induction false} TriedCount(base: string, k: nat)
    requires 1 <= k
    ensures |Tried(base, k)| == k - 1
  {
    if 1 < k {
      TriedCount(base, k - 1);
      var last := Candidate(base, k - 1);
      if last in Tried(base, k - 1) {
        TriedMembers(base, k - 1, last);
        var j: nat :| 1 <= j < k - 1 && last == Candidate(base, j);
        CandidatesDiffer(base, j, k - 1);
        assert false;
      }
    }
  }

  lemma {:induction false} SubsetIsNoLarger<T>(a: set<T>, b: set<T>)
    requires a <= b
    ensures |a| <= |b|
  {
    if a != {} {
      var x :| x in a;
      SubsetIsNoLarger(a - {x}, b - {x});
    }
  }

  /** Pigeonhole: names all in use are no more than the names in use. */
  lemma TriedFitsInUse(base: string, k: nat, used: set<string>)
    requires 1 <= k && forall j: nat | 1 <= j < k :: Candidate(base, j) in used
    ensures k - 1 <= |used|
  {
    TriedCount(base, k);
    forall c | c in Tried(base, k)
      ensures c in used
    {
      TriedMembers(base, k, c);
    }
    SubsetIsNoLarger(Tried(base, k), used);
  }

  ghost predicate FirstFree(base: string, used: set<string>, k: nat) {
    1 <= k && Candidate(base, k) !in used && forall j: nat | 1 <= j < k :: Candidate(base, j) in used
  }

  /** The inner loop: it stops within one more probe than there are names in use. */
  method FreshIdentifier(base: string, used: set<string>) returns (ident: string, ghost k: nat)
    ensures FirstFree(base, used, k) && k <= |used| + 1
    ensures ident == Candidate(base, k) && ident !in used
  {
    ident := base;
    k := 1;
    var suffix := 2;
    while ident in used
      invariant 1 <= k && suffix == k + 1 && ident == Candidate(base, k)
      invariant forall j: nat | 1 <= j < k :: Candidate(base, j) in used
      invariant k <= |used| + 1
      decreases |used| + 1 - k
    {
      assert forall j: nat | 1 <= j < k + 1 :: Candidate(base, j) in used;
      TriedFitsInUse(base, k + 1, used);
      ident := base + "_" + PrintNat(suffix);
      suffix := suffix + 1;
      k := k + 1;
    }
  }

  predicate Distinct(s: seq<string>) {
    forall i, j | 0 <= i < j < |s| :: s[i] != s[j]
  }

  /** Each name gets the first of its candidates that no earlier name took. */
  ghost predicate Allocated(names: seq<string>, idents: seq<string>) {
    && |idents| == |names|
    && forall i | 0 <= i < |names| :: TakesFirstFree(names[i], idents[..i], idents[i])
  }

  ghost predicate TakesFirstFree(name: string, earlier: seq<string>, ident: string) {
    exists k: nat :: FirstFree(SafeIdentifier(name), Members(earlier), k) && ident == Candidate(SafeIdentifier(name), k)
  }

  function Members(s: seq<string>): set<string> {
    set x | x in s
  }

  lemma AllocationGrows(names: seq<string>, idents: seq<string>, name: string, ident: string)
    requires Allocated(names, idents) && TakesFirstFree(name, idents, ident)
    ensures Allocated(names + [name], idents + [ident])
  {
    var after := idents + [ident];
    forall i | 0 <= i < |names| + 1
      ensures TakesFirstFree((names + [name])[i], after[..i], after[i])
    {
      assert after[..i] == if i < |idents| then idents[..i] else idents;
    }
  }

  /** The identifiers `emit_script` gives its rows, supported or not. */
  method AllocateIdentifiers(names: seq<string>) returns (idents: seq<string>)
    ensures Allocated(names, idents)
    ensures Distinct(idents)
  {
    var seen: set<string> := {};
    idents := [];
    for i := 0 to |names|
      invariant seen == Members(idents)
      invariant Allocated(names[..i], idents)
    {
      var ident, k := FreshIdentifier(SafeIdentifier(names[i]), seen);
      assert TakesFirstFree(names[i], idents, ident);
      AllocationGrows(names[..i], idents, names[i], ident);
      assert names[..i + 1] == names[..i] + [names[i]];
      idents := idents + [ident];
      seen := seen + {ident};
    }
    assert names[..|names|] == names;
    AllocationIsSound(names, idents);
  }

  lemma SuffixesByText(base: string, k: nat)
    ensures k < 2 ==> Candidate(base, k) == base
    ensures Candidate(base, 2) == base + "_2" && Candidate(base, 3) == base + "_3"
  {
    assert PrintNat(2) == "2" && PrintNat(3) == "3";
  }

  /** Three rows of one name get the base, base_2 and base_3. */
  lemma SameNameThrice(name: string, idents: seq<string>)
    requires Allocated([name, name, name], idents)
    ensures
      var base := SafeIdentifier(name);
      idents == [base, base + "_2", base + "_3"]
  {
    var base := SafeIdentifier(name);
    SuffixesByText(base, 1);
    CandidatesDiffer(base, 1, 2);
    CandidatesDiffer(base, 1, 3);
    CandidatesDiffer(base, 2, 3);
    FirstFreeIs(name, idents[..0], idents[0], 1);
    assert idents[..1] == [base];
    FirstFreeIs(name, idents[..1], idents[1], 2);
    assert idents[..2] == [base, base + "_2"];
    FirstFreeIs(name, idents[..2], idents[2], 3);
  }

  lemma FirstFreeIs(name: string, earlier: seq<string>, ident: string, k: nat)
    requires TakesFirstFree(name, earlier, ident) && 1 <= k
    requires forall j: nat | 1 <= j < k :: Candidate(SafeIdentifier(name), j) in earlier
    requires Candidate(SafeIdentifier(name), k) !in earlier
    ensures ident == Candidate(SafeIdentifier(name), k)
  {
    var base := SafeIdentifier(name);
    var m: nat :| FirstFree(base, Members(earlier), m) && ident == Candidate(base, m);
    assert m < k ==> Candidate(base, m) in Members(earlier);
    assert k < m ==> Candidate(base, k) in Members(earlier);
  }

  lemma CandidateIsIdentifier(base: string, k: nat)
    requires IsIdentifier(base)
    ensures IsIdentifier(Candidate(base, k))
  {
    ParsePrint(k);
    var s := PrintNat(k);
    assert forall i | 0 <= i < |s| :: IsWord(s[i]);
  }

  /** Every allocation by that rule consists of pairwise distinct identifiers. */
  lemma AllocationIsSound(names: seq<string>, idents: seq<string>)
    requires Allocated(names, idents)
    ensures Distinct(idents)
    ensures forall i | 0 <= i < |idents| :: IsIdentifier(idents[i])
  {
    forall i | 0 <= i < |idents|
      ensures IsIdentifier(idents[i]) && forall j | 0 <= j < i :: idents[j] != idents[i]
    {
      assert TakesFirstFree(names[i], idents[..i], idents[i]);
      var base := SafeIdentifier(names[i]);
      var k: nat :| FirstFree(base, Members(idents[..i]), k) && idents[i] == Candidate(base, k);
      SafeIdentifierIsIdentifier(names[i]);
      CandidateIsIdentifier(base, k);
      assert forall j | 0 <= j < i :: idents[j] == idents[..i][j];
    }
  }
}
