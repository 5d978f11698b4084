/**
 First-party pin checking: the numeric-tuple version comparison used when the
 `packaging` library is absent, the caps, and the floor and printed upper bound
 that a compatible-release specifier is turned into.

 A requirement comes as its (operator, version) tokens in order; the regular
 expressions that find them are left out.
 */
module PinConsistency {
  import opened Options
  import opened Strings

  const SEPARATORS: set<char> := {'.', '+', '!', '-'}

  // ---- Version comparison ----

  function NumericPrefix(chunks: seq<string>): seq<nat> {
    if chunks == [] || !IsNumeral(chunks[0]) then [] else [ParseNat(chunks[0])] + NumericPrefix(chunks[1..])
  }

  /** The leading numeric components of a version, trailing zeros included. */
  function Release(v: string): seq<nat> {
    NumericPrefix(Split(v, SEPARATORS))
  }

  function StripZeros(parts: seq<nat>): seq<nat> {
    if |parts| > 1 && parts[|parts| - 1] == 0 then StripZeros(parts[..|parts| - 1]) else parts
  }

  function ReleaseTuple(v: string): seq<nat> {
    StripZeros(Release(v))
  }

  /** `_release_tuple`, with its two loops. */
  method ComputeReleaseTuple(v: string) returns (parts: seq<nat>)
    ensures parts == ReleaseTuple(v)
  {
    var chunks := Split(v, SEPARATORS);
    parts := [];
    var i := 0;
    assert chunks[0..] == chunks;
    while i < |chunks| && IsNumeral(chunks[i])
      invariant 0 <= i <= |chunks|
      invariant parts + NumericPrefix(chunks[i..]) == Release(v)
    {
      assert chunks[i..][1..] == chunks[i + 1..];
      parts := parts + [ParseNat(chunks[i])];
      i := i + 1;
    }
    assert NumericPrefix(chunks[i..]) == [];
    assert parts == Release(v);
    while |parts| > 1 && parts[|parts| - 1] == 0
      invariant StripZeros(parts) == ReleaseTuple(v)
    {
      parts := parts[..|parts| - 1];
    }
  }

  /** Python's `>` on tuples of numbers. */
  predicate TupleGreater(a: seq<nat>, b: seq<nat>) {
    a != [] && (b == [] || a[0] > b[0] || (a[0] == b[0] && TupleGreater(a[1..], b[1..])))
  }

  predicate Veq(a: string, b: string) {
    ReleaseTuple(a) == ReleaseTuple(b)
  }

  predicate Vgt(a: string, b: string) {
    TupleGreater(ReleaseTuple(a), ReleaseTuple(b))
  }

  // ---- Comparison with zero padding, the reference order of PEP 440 ----

  function At(r: seq<nat>, i: nat): nat {
    if i < |r| then r[i] else 0
  }

  ghost predicate PaddedEqual(a: seq<nat>, b: seq<nat>) {
    forall i: nat :: At(a, i) == At(b, i)
  }

  ghost predicate LessAt(a: seq<nat>, b: seq<nat>, i: nat) {
    At(a, i) < At(b, i) && forall j: nat | j < i :: At(a, j) == At(b, j)
  }

  ghost predicate PaddedLess(a: seq<nat>, b: seq<nat>) {
    exists i: nat :: LessAt(a, b, i)
  }

  lemma {:induction false} StripKeepsValue(a: seq<nat>)
    ensures PaddedEqual(StripZeros(a), a)
    ensures (StripZeros(a) == [] <==> a == [])
    ensures |StripZeros(a)| <= 1 || StripZeros(a)[|StripZeros(a)| - 1] != 0
  {
    if |a| > 1 && a[|a| - 1] == 0 {
      StripKeepsValue(a[..|a| - 1]);
      assert forall i: nat :: At(a[..|a| - 1], i) == At(a, i);
    }
  }

  predicate NoTrailingZero(a: seq<nat>) {
    a == [] || a[|a| - 1] != 0
  }

  lemma PaddedLessStep(a: seq<nat>, b: seq<nat>)
    requires a != [] && b != []
    ensures PaddedLess(a, b) <==> a[0] < b[0] || (a[0] == b[0] && PaddedLess(a[1..], b[1..]))
  {
    assert forall i: nat :: At(a[1..], i) == At(a, i + 1) && At(b[1..], i) == At(b, i + 1);
    if a[0] < b[0] {
      assert LessAt(a, b, 0);
    } else if a[0] == b[0] {
      if i: nat :| LessAt(a[1..], b[1..], i) {
        assert LessAt(a, b, i + 1) by {
          forall j: nat | j < i + 1
            ensures At(a, j) == At(b, j)
          {
            if j > 0 {
              assert At(a[1..], j - 1) == At(b[1..], j - 1);
            }
          }
        }
      }
      if i: nat :| LessAt(a, b, i) {
        assert i > 0;
        assert LessAt(a[1..], b[1..], i - 1);
      }
    }
  }

  lemma {:induction false} NonZeroAboveEmpty(a: seq<nat>)
    requires a != [] && NoTrailingZero(a)
    ensures PaddedLess([], a)
  {
    if a[0] != 0 {
      assert LessAt([], a, 0);
    } else {
      NonZeroAboveEmpty(a[1..]);
      var i: nat :| LessAt([], a[1..], i);
      assert LessAt([], a, i + 1) by {
        forall j: nat | j < i + 1
          ensures At([], j) == At(a, j)
        {
          if j > 0 {
            assert At([], j - 1) == At(a[1..], j - 1);
          }
        }
      }
    }
  }

  lemma {:induction false} TupleOrderIsPadded(a: seq<nat>, b: seq<nat>)
    requires NoTrailingZero(a) && NoTrailingZero(b)
    ensures TupleGreater(a, b) <==> PaddedLess(b, a)
  {
    if a != [] && b != [] {
      PaddedLessStep(b, a);
      if a[0] == b[0] {
        TupleOrderIsPadded(a[1..], b[1..]);
      }
    } else if a != [] {
      NonZeroAboveEmpty(a);
    }
  }

  lemma PaddedLessRespects(a: seq<nat>, a': seq<nat>, b: seq<nat>, b': seq<nat>)
    requires PaddedEqual(a, a') && PaddedEqual(b, b')
    ensures PaddedLess(a, b) <==> PaddedLess(a', b')
  {
    if i: nat :| LessAt(a, b, i) {
      assert LessAt(a', b', i);
    }
    if i: nat :| LessAt(a', b', i) {
      assert LessAt(a, b, i);
    }
  }

  lemma StrippedOrderIsPadded(a: seq<nat>, b: seq<nat>)
    requires a != [] && b != []
    ensures TupleGreater(StripZeros(a), StripZeros(b)) <==> PaddedLess(b, a)
  {
    StripKeepsValue(a);
    StripKeepsValue(b);
    var x, y := StripZeros(a), StripZeros(b);
    PaddedLessStep(y, x);
    TupleOrderIsPadded(x[1..], y[1..]);
    PaddedLessRespects(y, b, x, a);
  }

  lemma EqualWithoutTrailingZeros(a: seq<nat>, b: seq<nat>)
    requires a != [] && b != [] && PaddedEqual(a, b)
    requires |a| <= 1 || a[|a| - 1] != 0
    requires |b| <= 1 || b[|b| - 1] != 0
    ensures a == b
  {
    assert |a| == |b| by {
      assert At(a, |a| - 1) == At(b, |a| - 1);
      assert At(a, |b| - 1) == At(b, |b| - 1);
    }
    forall i | 0 <= i < |a|
      ensures a[i] == b[i]
    {
      assert At(a, i) == At(b, i);
    }
  }

  /** On versions with a numeric release, the tuple comparison is the zero-padded one. */
  lemma ComparisonIsPadded(a: string, b: string)
    requires Release(a) != [] && Release(b) != []
    ensures Vgt(a, b) <==> PaddedLess(Release(b), Release(a))
    ensures Veq(a, b) <==> PaddedEqual(Release(a), Release(b))
  {
    StrippedOrderIsPadded(Release(a), Release(b));
    StripKeepsValue(Release(a));
    StripKeepsValue(Release(b));
    if PaddedEqual(Release(a), Release(b)) {
      forall i: nat
        ensures At(ReleaseTuple(a), i) == At(ReleaseTuple(b), i)
      {
        assert At(Release(a), i) == At(Release(b), i);
      }
      EqualWithoutTrailingZeros(ReleaseTuple(a), ReleaseTuple(b));
    }
    if Veq(a, b) {
      forall i: nat
        ensures At(Release(a), i) == At(Release(b), i)
      {
        assert At(ReleaseTuple(a), i) == At(Release(a), i);
        assert At(ReleaseTuple(b), i) == At(Release(b), i);
      }
    }
  }

  // ---- Caps ----

  datatype Cap = Cap(op: string, version: string)

  function SkipBlanks(s: string): string {
    if s != "" && s[0] in " \t\n\r" then SkipBlanks(s[1..]) else s
  }

  function TryOperator(op: string, c: string): Option<Cap> {
    if op <= c && SkipBlanks(c[|op|..]) != "" then Some(Cap(op, SkipBlanks(c[|op|..]))) else None
  }

  /** The operators are tried in the order of the pattern's alternation. */
  function ParseCap(c: string): Option<Cap> {
    if TryOperator("<=", c).Some? then TryOperator("<=", c)
    else if TryOperator("<", c).Some? then TryOperator("<", c)
    else if TryOperator("==", c).Some? then TryOperator("==", c)
    else if TryOperator("!=", c).Some? then TryOperator("!=", c)
    else TryOperator("===", c)
  }

  predicate Excludes(c: string, current: string) {
    match ParseCap(c)
    case None => false
    case Some(Cap(op, version)) =>
      || (op == "<" && !Vgt(version, current))
      || (op == "<=" && Vgt(current, version))
      || ((op == "==" || op == "===") && !Veq(version, current))
      || (op == "!=" && Veq(version, current))
  }

  predicate CapExcludes(caps: seq<string>, current: string) {
    exists c :: c in caps && Excludes(c, current)
  }

  /** `_cap_excludes`. */
  method ComputeCapExcludes(caps: seq<string>, current: string) returns (excluded: bool)
    ensures excluded == CapExcludes(caps, current)
  {
    for i := 0 to |caps|
      invariant forall k | 0 <= k < i :: !Excludes(caps[k], current)
    {
      assert Excludes(caps[i], current) ==> CapExcludes(caps, current);
      var m := ParseCap(caps[i]);
      if m.None? {
        continue;
      }
      var op, version := m.value.op, m.value.version;
      assert m == Some(Cap(op, version));
      if op == "<" && !Vgt(version, current) {
        return true;
      }
      if op == "<=" && Vgt(current, version) {
        return true;
      }
      if (op == "==" || op == "===") && !Veq(version, current) {
        return true;
      }
      if op == "!=" && Veq(version, current) {
        return true;
      }
    }
    return false;
  }

  predicate StartsWithDigit(v: string) {
    v != "" && IsDigit(v[0])
  }

  /** A cap that a parsed requirement carries reads back as the operator and version it was printed from. */
  lemma PrintedCapReadsBack(op: string, v: string)
    requires op in ["<", "<=", "==", "!="] && StartsWithDigit(v)
    ensures ParseCap(op + v) == Some(Cap(op, v))
  {
    var c := op + v;
    assert c[|op|..] == v && SkipBlanks(v) == v;
    assert TryOperator(op, c) == Some(Cap(op, v));
    assert c[0] == op[0] && c[|op|] == v[0] && v[0] != '=';
    assert "<=" <= c ==> c[1] == '=';
  }

  /** What each cap lets through, in terms of zero-padded releases. */
  lemma CapMeaning(op: string, v: string, current: string)
    requires op in ["<", "<=", "==", "!="] && StartsWithDigit(v)
    requires Release(v) != [] && Release(current) != []
    ensures
      var bound, now := Release(v), Release(current);
      !Excludes(op + v, current) <==>
      if op == "<" then PaddedLess(now, bound)
      else if op == "<=" then !PaddedLess(bound, now)
      else if op == "==" then PaddedEqual(now, bound)
      else !PaddedEqual(now, bound)
  {
    PrintedCapReadsBack(op, v);
    ComparisonIsPadded(v, current);
    ComparisonIsPadded(current, v);
    assert PaddedEqual(Release(v), Release(current)) <==> PaddedEqual(Release(current), Release(v));
  }

  /** An arbitrary-equality cap is read as `==` with a stray `=` in the version, so
      it excludes every version with a numeric release, its own included. */
  lemma ArbitraryEqualityAlwaysExcludes(v: string, current: string)
    requires StartsWithDigit(v)
    ensures Excludes("===" + v, current) <==> Release(current) != []
  {
    var c := "===" + v;
    var rest := "=" + v;
    assert c[0] == '=' && c[1] == '=' && c[|"=="|..] == rest;
    assert SkipBlanks(rest) == rest;
    assert ParseCap(c) == Some(Cap("==", rest));
    var chunks := Split(rest, SEPARATORS);
    assert rest[0] == '=' && rest[1..] == v;
    assert chunks[0] == ['='] + Split(v, SEPARATORS)[0];
    assert !IsDigit(chunks[0][0]);
    assert Release(rest) == [];
    StripKeepsValue(Release(current));
  }

  // ---- The compatible-release bound ----

  function Printed(parts: seq<nat>): seq<string> {
    if parts == [] then [] else [PrintNat(parts[0])] + Printed(parts[1..])
  }

  /** Drops the last component and increments the one before it. */
  function Bumped(rel: seq<nat>): seq<nat>
    requires 2 <= |rel|
  {
    rel[..|rel| - 2] + [rel[|rel| - 2] + 1]
  }

  function TildeUpper(v: string): Option<string> {
    var rel := Release(v);
    if |rel| < 2 then None else Some(Join(Printed(Bumped(rel)), '.'))
  }

  lemma {:induction false} PrintedIsNumeric(parts: seq<nat>)
    ensures |Printed(parts)| == |parts|
    ensures forall k | 0 <= k < |parts| :: Printed(parts)[k] == PrintNat(parts[k])
    ensures NumericPrefix(Printed(parts)) == parts
  {
    if parts != [] {
      PrintedIsNumeric(parts[1..]);
      ParsePrint(parts[0]);
      assert Printed(parts)[1..] == Printed(parts[1..]);
    }
  }

  lemma DigitIsNoSeparator(c: char)
    requires IsDigit(c)
    ensures c !in SEPARATORS
  {
  }

  lemma NumeralsAreFree(n: nat)
    ensures Free(PrintNat(n), SEPARATORS)
  {
    ParsePrint(n);
    var s := PrintNat(n);
    forall i | 0 <= i < |s|
      ensures s[i] !in SEPARATORS
    {
      DigitIsNoSeparator(s[i]);
    }
  }

  /** Printing a release and reading it back gives the same components. */
  lemma PrintedReleaseReadsBack(parts: seq<nat>)
    requires parts != []
    ensures Release(Join(Printed(parts), '.')) == parts
    ensures StartsWithDigit(Join(Printed(parts), '.'))
  {
    PrintedIsNumeric(parts);
    ParsePrint(parts[0]);
    forall p | p in Printed(parts)
      ensures Free(p, SEPARATORS)
    {
      var k :| 0 <= k < |parts| && p == Printed(parts)[k];
      NumeralsAreFree(parts[k]);
    }
    SplitJoin(Printed(parts), '.', SEPARATORS);
    assert Printed(parts)[0] == PrintNat(parts[0]);
  }

  // ---- Where a version is split, and where its numeric part ends ----

  lemma NumeralComesFirst(n: nat, rest: seq<string>)
    ensures NumericPrefix([PrintNat(n)] + rest) == [n] + NumericPrefix(rest)
  {
    ParsePrint(n);
    var chunks := [PrintNat(n)] + rest;
    assert chunks[0] == PrintNat(n) && chunks[1..] == rest;
  }

  lemma {:induction false} NumericPrefixContinues(parts: seq<nat>, more: seq<string>)
    ensures NumericPrefix(Printed(parts) + more) == parts + NumericPrefix(more)
  {
    if parts == [] {
      assert Printed(parts) + more == more;
    } else {
      var n, rest := parts[0], parts[1..];
      NumericPrefixContinues(rest, more);
      NumeralComesFirst(n, Printed(rest) + more);
      Associates([PrintNat(n)], Printed(rest), more);
      Associates([n], rest, NumericPrefix(more));
      assert [n] + rest == parts;
    }
  }

  lemma Associates<T>(a: seq<T>, b: seq<T>, c: seq<T>)
    ensures a + (b + c) == (a + b) + c
  {
  }

  lemma PrintedSplits(parts: seq<nat>)
    requires parts != []
    ensures Printed(parts) != [] && Split(Join(Printed(parts), '.'), SEPARATORS) == Printed(parts)
  {
    PrintedIsNumeric(parts);
    forall p | p in Printed(parts)
      ensures Free(p, SEPARATORS)
    {
      var k :| 0 <= k < |parts| && p == Printed(parts)[k];
      NumeralsAreFree(parts[k]);
    }
    SplitJoin(Printed(parts), '.', SEPARATORS);
  }

  /** A dot, a plus, an exclamation mark and a minus separate components alike. */
  lemma SeparatorsSplit(a: seq<nat>, sep: char, rest: string)
    requires a != [] && (sep == '.' || sep == '+' || sep == '!' || sep == '-')
    ensures Release(Join(Printed(a), '.') + [sep] + rest) == a + Release(rest)
  {
    PrintedSplits(a);
    SplitAtSeparator(Join(Printed(a), '.'), sep, rest, SEPARATORS);
    NumericPrefixContinues(a, Split(rest, SEPARATORS));
  }

  lemma {:induction false} FirstChunkStarts(head: string, rest: string)
    requires Free(head, SEPARATORS)
    ensures head <= Split(head + rest, SEPARATORS)[0]
  {
    if head != "" {
      assert (head + rest)[0] == head[0] && (head + rest)[1..] == head[1..] + rest;
      FirstChunkStarts(head[1..], rest);
      var first := Split(head[1..] + rest, SEPARATORS)[0];
      assert Split(head + rest, SEPARATORS)[0] == [head[0]] + first;
      assert head == [head[0]] + head[1..];
    }
  }

  /** Any other character that is no digit ends the numeric part, with the component it stands in. */
  lemma OtherCharactersStop(a: seq<nat>, digits: string, c: char, rest: string)
    requires !IsDigit(c) && c != '.' && c != '+' && c != '!' && c != '-'
    requires Free(digits, SEPARATORS)
    ensures Release(digits + [c] + rest) == []
    ensures a != [] ==> Release(Join(Printed(a), '.') + ['.'] + (digits + [c] + rest)) == a
  {
    var head := digits + [c];
    assert forall i | 0 <= i < |head| :: head[i] == if i < |digits| then digits[i] else c;
    FirstChunkStarts(head, rest);
    var first := Split(head + rest, SEPARATORS)[0];
    assert first[|digits|] == head[|digits|] == c;
    assert !IsNumeral(first);
    assert digits + [c] + rest == head + rest;
    if a != [] {
      SeparatorsSplit(a, '.', digits + [c] + rest);
      assert a + [] == a;
    }
  }

  // ---- Requirements ----

  datatype Token = Token(op: string, version: string)

  datatype Pin = Pin(floor: Option<string>, caps: seq<string>)

  const CAP_OPERATORS: seq<string> := ["<", "<=", "==", "!=", "==="]

  function AddToken(pin: Pin, t: Token): Pin {
    if t.op == ">=" || t.op == ">" then Pin(Some(t.version), pin.caps)
    else if t.op == "~=" then
      var upper := TildeUpper(t.version);
      Pin(Some(t.version), if upper.Some? then pin.caps + ["<" + upper.value] else pin.caps)
    else if t.op == "==" && '*' !in t.version then Pin(Some(t.version), pin.caps + ["==" + t.version])
    else if t.op in CAP_OPERATORS then Pin(pin.floor, pin.caps + [t.op + t.version])
    else pin
  }

  function ParseTokens(pin: Pin, ts: seq<Token>): Pin
    decreases |ts|
  {
    if ts == [] then pin else ParseTokens(AddToken(pin, ts[0]), ts[1..])
  }

  function Parsed(ts: seq<Token>): Pin {
    ParseTokens(Pin(None, []), ts)
  }

  /** The loop of `_parse_req`. */
  method ParseReq(ts: seq<Token>) returns (pin: Pin)
    ensures pin == Parsed(ts)
  {
    var floor: Option<string>, caps: seq<string> := None, [];
    assert ts[0..] == ts;
    for i := 0 to |ts|
      invariant ParseTokens(Pin(floor, caps), ts[i..]) == Parsed(ts)
    {
      assert ts[i..][1..] == ts[i + 1..];
      var op, version := ts[i].op, ts[i].version;
      if op == ">=" || op == ">" {
        floor := Some(version);
      } else if op == "~=" {
        floor := Some(version);
        var upper := TildeUpper(version);
        if upper.Some? {
          caps := caps + ["<" + upper.value];
        }
      } else if op == "==" && '*' !in version {
        floor := Some(version);
        caps := caps + ["==" + version];
      } else if op in CAP_OPERATORS {
        caps := caps + [op + version];
      }
    }
    pin := Pin(floor, caps);
  }

  /** The checks a report makes of a pin: floor not above, and no cap excluding, the current version. */
  predicate Passes(pin: Pin, current: string) {
    (pin.floor.Some? ==> !Vgt(pin.floor.value, current)) && !CapExcludes(pin.caps, current)
  }

  /** `current` has the components of `base`, with zero padding, in all places but base's last. */
  ghost predicate SharesPrefix(current: seq<nat>, base: seq<nat>) {
    forall i: nat | i < |base| - 1 :: At(current, i) == base[i]
  }

  /** At or above V and below its bumped prefix is at or above V with V's prefix. */
  lemma BetweenIsCompatible(now: seq<nat>, base: seq<nat>)
    requires 2 <= |base|
    ensures
      !PaddedLess(now, base) && PaddedLess(now, Bumped(base)) <==>
      !PaddedLess(now, base) && SharesPrefix(now, base)
  {
    var bumped := Bumped(base);
    var last := |base| - 2;
    assert forall j: nat | j < last :: At(bumped, j) == At(base, j) == base[j];
    if SharesPrefix(now, base) {
      assert LessAt(now, bumped, last);
    }
    if !PaddedLess(now, base) && PaddedLess(now, bumped) {
      var i: nat :| LessAt(now, bumped, i);
      if i < last {
        assert LessAt(now, base, i);
      }
      assert i == last;
      if At(now, last) < base[last] {
        assert LessAt(now, base, last);
      }
      forall j: nat | j < |base| - 1
        ensures At(now, j) == base[j]
      {
        if j < last {
          assert At(now, j) == At(bumped, j);
        }
      }
    }
  }

  lemma SingleToken(t: Token)
    ensures Parsed([t]) == AddToken(Pin(None, []), t)
  {
    var pin := AddToken(Pin(None, []), t);
    assert [t][1..] == [] && ParseTokens(pin, []) == pin;
  }

  lemma CompatiblePin(v: string)
    ensures
      Parsed([Token("~=", v)])
      == Pin(Some(v), if TildeUpper(v).Some? then ["<" + TildeUpper(v).value] else [])
  {
    SingleToken(Token("~=", v));
    if TildeUpper(v).Some? {
      assert [] + ["<" + TildeUpper(v).value] == ["<" + TildeUpper(v).value];
    }
  }

  /**
   A compatible-release requirement, through its floor, its printed cap and the
   cap's re-reading, accepts exactly the versions at or above V that agree with
   V, with zero padding, on all but V's last component.
   */
  lemma CompatibleRelease(v: string, current: string)
    requires 2 <= |Release(v)|
    ensures
      Passes(Parsed([Token("~=", v)]), current) <==>
      && Release(current) != []
      && !PaddedLess(Release(current), Release(v))
      && SharesPrefix(Release(current), Release(v))
  {
    var upper := Join(Printed(Bumped(Release(v))), '.');
    CompatiblePin(v);
    PrintedReleaseReadsBack(Bumped(Release(v)));
    assert CapExcludes(["<" + upper], current) <==> Excludes("<" + upper, current) by {
      assert "<" + upper in ["<" + upper];
    }
    if Release(current) == [] {
      StripKeepsValue(Release(v));
      assert Vgt(v, current);
    } else {
      ComparisonIsPadded(v, current);
      CapMeaning("<", upper, current);
      BetweenIsCompatible(Release(current), Release(v));
    }
  }

  /** With fewer than two numeric components no cap is made, and only the floor is checked. */
  lemma NoCompatibleCap(v: string, current: string)
    requires |Release(v)| < 2
    ensures Passes(Parsed([Token("~=", v)]), current) <==> !Vgt(v, current)
  {
    CompatiblePin(v);
  }

  /** What a requirement with one plain operator accepts; `>` is checked as `>=`. */
  lemma PlainRequirement(op: string, v: string, current: string)
    requires op in [">=", ">", "<", "<=", "==", "!="] && StartsWithDigit(v) && '*' !in v
    requires Release(v) != [] && Release(current) != []
    ensures
      var bound, now := Release(v), Release(current);
      Passes(Parsed([Token(op, v)]), current) <==>
      if op == ">=" || op == ">" then !PaddedLess(now, bound)
      else if op == "<" then PaddedLess(now, bound)
      else if op == "<=" then !PaddedLess(bound, now)
      else if op == "==" then PaddedEqual(now, bound)
      else !PaddedEqual(now, bound)
  {
    var pin := Parsed([Token(op, v)]);
    SingleToken(Token(op, v));
    ComparisonIsPadded(v, current);
    if op != ">=" && op != ">" {
      CapMeaning(op, v, current);
      assert [] + [op + v] == [op + v] && pin.caps == [op + v];
      assert CapExcludes(pin.caps, current) <==> Excludes(op + v, current) by {
        assert op + v in [op + v];
      }
      if op == "==" && PaddedEqual(Release(current), Release(v)) {
        assert !PaddedLess(Release(current), Release(v));
      }
    }
  }

  // ---- Requirements of several tokens ----

  /** What one token sets on its own. */
  function Alone(t: Token): Pin {
    AddToken(Pin(None, []), t)
  }

  function LastFloor(ts: seq<Token>): Option<string> {
    if ts == [] then None
    else if LastFloor(ts[1..]).Some? then LastFloor(ts[1..])
    else Alone(ts[0]).floor
  }

  /** No cap of any token excludes the version. */
  predicate CapsHold(ts: seq<Token>, current: string) {
    forall t | t in ts :: !CapExcludes(Alone(t).caps, current)
  }

  predicate EveryTokenPasses(ts: seq<Token>, current: string) {
    forall t | t in ts :: Passes(Alone(t), current)
  }

  ghost predicate MeansEveryToken(ts: seq<Token>) {
    forall current :: Passes(Parsed(ts), current) <==> EveryTokenPasses(ts, current)
  }

  lemma TokenAdds(pin: Pin, t: Token)
    ensures
      AddToken(pin, t)
      == Pin(if Alone(t).floor.Some? then Alone(t).floor else pin.floor, pin.caps + Alone(t).caps)
  {
  }

  lemma {:induction false} ParsedTokens(pin: Pin, ts: seq<Token>, current: string)
    ensures
      var parsed := ParseTokens(pin, ts);
      && parsed.floor == (if LastFloor(ts).Some? then LastFloor(ts) else pin.floor)
      && (CapExcludes(parsed.caps, current) <==> CapExcludes(pin.caps, current) || !CapsHold(ts, current))
    decreases |ts|
  {
    if ts != [] {
      TokenAdds(pin, ts[0]);
      ParsedTokens(AddToken(pin, ts[0]), ts[1..], current);
      assert ts == [ts[0]] + ts[1..];
      assert CapsHold(ts, current) <==> !CapExcludes(Alone(ts[0]).caps, current) && CapsHold(ts[1..], current);
      CapsUnion(pin.caps, Alone(ts[0]).caps, current);
    }
  }

  lemma CapsUnion(a: seq<string>, b: seq<string>, current: string)
    ensures CapExcludes(a + b, current) <==> CapExcludes(a, current) || CapExcludes(b, current)
  {
    if c :| c in a && Excludes(c, current) {
      assert c in a + b;
    }
    if c :| c in b && Excludes(c, current) {
      assert c in a + b;
    }
  }

  /** Every token's cap counts, but of the lower bounds only the last one does. */
  lemma LastFloorDecides(ts: seq<Token>, current: string)
    ensures
      Passes(Parsed(ts), current) <==>
      (LastFloor(ts).Some? ==> !Vgt(LastFloor(ts).value, current)) && CapsHold(ts, current)
  {
    ParsedTokens(Pin(None, []), ts, current);
  }

  lemma {:induction false} LastFloorIsATokens(ts: seq<Token>)
    ensures LastFloor(ts).Some? ==> exists t :: t in ts && Alone(t).floor == LastFloor(ts)
    ensures LastFloor(ts).None? ==> forall t | t in ts :: Alone(t).floor.None?
  {
    if ts != [] {
      LastFloorIsATokens(ts[1..]);
      assert ts == [ts[0]] + ts[1..];
      assert ts[0] in ts;
    }
  }

  lemma {:induction false} GreaterIsIrreflexive(a: seq<nat>)
    ensures !TupleGreater(a, a)
  {
    if a != [] {
      GreaterIsIrreflexive(a[1..]);
    }
  }

  lemma {:induction false} NotGreaterIsTransitive(a: seq<nat>, b: seq<nat>, c: seq<nat>)
    requires !TupleGreater(a, b) && !TupleGreater(b, c)
    ensures !TupleGreater(a, c)
  {
    if a != [] && b != [] && c != [] && a[0] == b[0] == c[0] {
      NotGreaterIsTransitive(a[1..], b[1..], c[1..]);
    }
  }

  /** No token sets a lower bound above the last one. */
  predicate LastFloorIsHighest(ts: seq<Token>) {
    LastFloor(ts).Some? ==>
      forall t | t in ts && Alone(t).floor.Some? :: !Vgt(Alone(t).floor.value, LastFloor(ts).value)
  }

  /** Meeting every token is enough to pass; it fails to be necessary exactly where an
      overwritten lower bound is above the version. */
  lemma PassesWithoutEveryTokenIff(ts: seq<Token>, current: string)
    ensures EveryTokenPasses(ts, current) ==> Passes(Parsed(ts), current)
    ensures
      Passes(Parsed(ts), current) && !EveryTokenPasses(ts, current) <==>
      && Passes(Parsed(ts), current)
      && exists t :: t in ts && Alone(t).floor.Some? && Vgt(Alone(t).floor.value, current)
  {
    LastFloorDecides(ts, current);
    LastFloorIsATokens(ts);
  }

  /**
   A requirement accepts exactly the versions that meet each of its tokens if no
   token sets a lower bound above the last one. When its caps admit the last
   lower bound itself, it does so only then.
   */
  lemma HighestFloorIff(ts: seq<Token>)
    ensures LastFloorIsHighest(ts) ==> MeansEveryToken(ts)
    ensures
      (LastFloor(ts).Some? ==> CapsHold(ts, LastFloor(ts).value)) ==>
      (MeansEveryToken(ts) <==> LastFloorIsHighest(ts))
  {
    LastFloorIsATokens(ts);
    if LastFloorIsHighest(ts) {
      forall current
        ensures Passes(Parsed(ts), current) <==> EveryTokenPasses(ts, current)
      {
        HighestFloorSuffices(ts, current);
      }
    } else if CapsHold(ts, LastFloor(ts).value) {
      var last := LastFloor(ts).value;
      var t :| t in ts && Alone(t).floor.Some? && Vgt(Alone(t).floor.value, last);
      GreaterIsIrreflexive(ReleaseTuple(last));
      LastFloorDecides(ts, last);
      assert Passes(Parsed(ts), last) && !Passes(Alone(t), last);
    }
  }

  lemma HighestFloorSuffices(ts: seq<Token>, current: string)
    requires LastFloorIsHighest(ts)
    ensures Passes(Parsed(ts), current) <==> EveryTokenPasses(ts, current)
  {
    PassesWithoutEveryTokenIff(ts, current);
    LastFloorDecides(ts, current);
    LastFloorIsATokens(ts);
    if Passes(Parsed(ts), current) {
      forall t | t in ts
        ensures Passes(Alone(t), current)
      {
        if Alone(t).floor.Some? {
          NotGreaterIsTransitive(
            ReleaseTuple(Alone(t).floor.value), ReleaseTuple(LastFloor(ts).value), ReleaseTuple(current));
        }
      }
    }
  }

  // ---- What a whole requirement accepts, by its texts ----

  /** The operators that set the lower bound: `>=`, `>`, `~=`, and `==` without a wildcard. */
  predicate SetsFloor(t: Token) {
    || t.op == ">=" || t.op == ">" || t.op == "~="
    || (t.op == "==" && forall i | 0 <= i < |t.version| :: t.version[i] != '*')
  }

  predicate IsLastFloor(ts: seq<Token>, i: int) {
    0 <= i < |ts| && SetsFloor(ts[i]) && forall k | i < k < |ts| :: !SetsFloor(ts[k])
  }

  lemma AloneFloor(t: Token)
    ensures Alone(t).floor == if SetsFloor(t) then Some(t.version) else None
  {
  }

  /** The floor of a requirement is the version of its last token that sets one. */
  lemma {:induction false} FloorIsTheLast(ts: seq<Token>, v: string)
    ensures Parsed(ts).floor == LastFloor(ts)
    ensures LastFloor(ts) == Some(v) <==> exists i :: IsLastFloor(ts, i) && ts[i].version == v
  {
    ParsedTokens(Pin(None, []), ts, "");
    if ts != [] {
      FloorIsTheLast(ts[1..], v);
      LastFloorIsATokens(ts[1..]);
      AloneFloor(ts[0]);
      forall t | t in ts[1..]
        ensures Alone(t).floor.Some? <==> SetsFloor(t)
      {
        AloneFloor(t);
      }
      forall i
        ensures IsLastFloor(ts[1..], i) <==> i + 1 > 0 && IsLastFloor(ts, i + 1)
      {
        LaterFloor(ts, i);
      }
      if i :| IsLastFloor(ts[1..], i) && ts[1..][i].version == v {
        assert IsLastFloor(ts, i + 1) && ts[i + 1].version == v;
      }
      if i :| IsLastFloor(ts, i) && ts[i].version == v {
        if i > 0 {
          assert IsLastFloor(ts[1..], i - 1) && ts[1..][i - 1].version == v;
        } else {
          assert forall t | t in ts[1..] :: !SetsFloor(t);
        }
      }
    }
  }

  lemma LaterFloor(ts: seq<Token>, i: int)
    requires ts != []
    ensures IsLastFloor(ts[1..], i) <==> i + 1 > 0 && IsLastFloor(ts, i + 1)
  {
    if IsLastFloor(ts[1..], i) {
      forall k | i + 1 < k < |ts|
        ensures !SetsFloor(ts[k])
      {
        assert ts[k] == ts[1..][k - 1];
      }
    }
    if i + 1 > 0 && IsLastFloor(ts, i + 1) {
      forall k | i < k < |ts[1..]|
        ensures !SetsFloor(ts[1..][k])
      {
        assert ts[1..][k] == ts[k + 1];
      }
    }
  }

  /** What a token asks besides its lower bound. */
  ghost predicate CapMeets(t: Token, now: seq<nat>) {
    var bound := Release(t.version);
    && (t.op == "<" ==> PaddedLess(now, bound))
    && (t.op == "<=" ==> !PaddedLess(bound, now))
    && (t.op == "==" ==> PaddedEqual(now, bound))
    && (t.op == "!=" ==> !PaddedEqual(now, bound))
    && t.op != "==="
    && (t.op == "~=" && 2 <= |bound| ==> PaddedLess(now, bound) || SharesPrefix(now, bound))
  }

  ghost predicate IsToken(t: Token) {
    && t.op in [">=", ">", "~=", "<", "<=", "==", "!=", "==="]
    && StartsWithDigit(t.version) && Release(t.version) != []
  }

  /** Below the bumped prefix is below the version or of the same prefix. */
  lemma BelowBumped(now: seq<nat>, base: seq<nat>)
    requires 2 <= |base|
    ensures PaddedLess(now, Bumped(base)) <==> PaddedLess(now, base) || SharesPrefix(now, base)
  {
    BetweenIsCompatible(now, base);
    if i: nat :| LessAt(now, base, i) {
      var bumped, last := Bumped(base), |base| - 2;
      assert forall j: nat | j < last :: At(bumped, j) == At(base, j);
      if i < last {
        assert LessAt(now, bumped, i);
      } else {
        assert At(now, last) <= At(base, last) by {
          assert i == last || At(now, last) == At(base, last);
        }
        assert LessAt(now, bumped, last);
      }
    }
  }

  lemma OneCap(c: string, current: string)
    ensures CapExcludes([c], current) <==> Excludes(c, current)
  {
    assert c in [c];
  }

  lemma CapsOfToken(t: Token, current: string)
    requires IsToken(t) && Release(current) != []
    ensures !CapExcludes(Alone(t).caps, current) <==> CapMeets(t, Release(current))
  {
    assert forall c: string :: [] + [c] == [c];
    OneCap(t.op + t.version, current);
    if t.op == "~=" {
      if 2 <= |Release(t.version)| {
        var upper := Join(Printed(Bumped(Release(t.version))), '.');
        PrintedReleaseReadsBack(Bumped(Release(t.version)));
        OneCap("<" + upper, current);
        CapMeaning("<", upper, current);
        BelowBumped(Release(current), Release(t.version));
      }
    } else if t.op == "===" {
      ArbitraryEqualityAlwaysExcludes(t.version, current);
    } else if t.op != ">=" && t.op != ">" {
      CapMeaning(t.op, t.version, current);
    }
  }

  /**
   What any list of tokens accepts, in the zero-padded order: the versions not
   below the last lower bound that meet every token's cap.
   */
  lemma RequirementMeaning(ts: seq<Token>, current: string)
    requires (forall t | t in ts :: IsToken(t)) && Release(current) != []
    ensures
      Passes(Parsed(ts), current) <==>
      && (forall i | IsLastFloor(ts, i) :: !PaddedLess(Release(current), Release(ts[i].version)))
      && (forall t | t in ts :: CapMeets(t, Release(current)))
  {
    LastFloorDecides(ts, current);
    forall t | t in ts
      ensures !CapExcludes(Alone(t).caps, current) <==> CapMeets(t, Release(current))
    {
      CapsOfToken(t, current);
    }
    forall i | IsLastFloor(ts, i)
      ensures LastFloor(ts) == Some(ts[i].version)
      ensures Vgt(ts[i].version, current) <==> PaddedLess(Release(current), Release(ts[i].version))
    {
      FloorIsTheLast(ts, ts[i].version);
      assert ts[i] in ts;
      ComparisonIsPadded(ts[i].version, current);
    }
    if LastFloor(ts).Some? {
      FloorIsTheLast(ts, LastFloor(ts).value);
      var i :| IsLastFloor(ts, i) && ts[i].version == LastFloor(ts).value;
    }
  }

  /** A wildcard sets no lower bound, and its cap is read without the wildcard: `==1.*`
      accepts 1 and 1.0 but no 1.5. */
  lemma WildcardIsReadAsEquality(parts: seq<nat>, current: string)
    requires parts != [] && Release(current) != []
    ensures
      var v := Join(Printed(parts), '.') + ".*";
      && Parsed([Token("==", v)]).floor.None?
      && (Passes(Parsed([Token("==", v)]), current) <==> PaddedEqual(Release(current), parts))
  {
    var t := Token("==", Join(Printed(parts), '.') + ".*");
    WildcardToken(parts, t);
    SingleToken(t);
    AloneFloor(t);
    RequirementMeaning([t], current);
    assert forall x | x in [t] :: x == t;
    assert t in [t];
  }

  lemma WildcardToken(parts: seq<nat>, t: Token)
    requires parts != [] && t == Token("==", Join(Printed(parts), '.') + ".*")
    ensures IsToken(t) && !SetsFloor(t) && Release(t.version) == parts
  {
    var printed := Join(Printed(parts), '.');
    PrintedReleaseReadsBack(parts);
    OtherCharactersStop(parts, "", '*', "");
    assert t.version == printed + ['.'] + ("" + ['*'] + "");
    assert t.version[0] == printed[0] && t.version[|printed| + 1] == '*';
  }

  // ---- Exactly when a list means all its tokens ----

  lemma {:induction false} GreaterIsAsymmetric(a: seq<nat>, b: seq<nat>)
    requires TupleGreater(a, b)
    ensures !TupleGreater(b, a)
  {
    if b != [] && a[0] == b[0] {
      GreaterIsAsymmetric(a[1..], b[1..]);
    }
  }

  lemma {:induction false} GreaterIsTotal(a: seq<nat>, b: seq<nat>)
    ensures a == b || TupleGreater(a, b) || TupleGreater(b, a)
  {
    if a != [] && b != [] && a[0] == b[0] {
      GreaterIsTotal(a[1..], b[1..]);
      assert a == [a[0]] + a[1..] && b == [b[0]] + b[1..];
    }
  }

  /** At or above `low`, and above `low` unless equal to it. */
  lemma BelowBoth(high: string, low: string, current: string)
    requires Vgt(high, current) && !Vgt(low, current)
    ensures Vgt(high, low)
  {
    if !Vgt(high, low) {
      NotGreaterIsTransitive(ReleaseTuple(high), ReleaseTuple(low), ReleaseTuple(current));
    }
  }

  function Zeros(n: nat): seq<nat> {
    seq(n, _ => 0)
  }

  /** A version so little above v that none of up to n components fits in between. */
  function JustAbove(v: string, n: nat): string {
    Join(Printed(ReleaseTuple(v) + (Zeros(n) + [1])), '.')
  }

  lemma JustAboveReadsBack(v: string, n: nat)
    ensures ReleaseTuple(JustAbove(v, n)) == ReleaseTuple(v) + (Zeros(n) + [1])
  {
    PrintedReleaseReadsBack(ReleaseTuple(v) + (Zeros(n) + [1]));
  }

  lemma {:induction false} ZerosThenOne(y: seq<nat>, n: nat)
    requires y != [] && y[|y| - 1] != 0 && |y| <= n
    ensures TupleGreater(y, Zeros(n) + [1])
  {
    var z := Zeros(n) + [1];
    assert z[0] == 0 && z[1..] == Zeros(n - 1) + [1];
    if y[0] == 0 {
      ZerosThenOne(y[1..], n - 1);
    }
  }

  lemma {:induction false} ExtensionIsGreater(a: seq<nat>, tail: seq<nat>)
    requires tail != []
    ensures TupleGreater(a + tail, a)
  {
    if a == [] {
      assert a + tail == tail;
    } else {
      ExtensionIsGreater(a[1..], tail);
      assert (a + tail)[1..] == a[1..] + tail;
    }
  }

  lemma {:induction false} NothingBetween(y: seq<nat>, a: seq<nat>, n: nat)
    requires TupleGreater(y, a) && |y| <= n
    requires y[|y| - 1] != 0 || (a != [] && |y| <= 1)
    ensures TupleGreater(y, a + (Zeros(n) + [1]))
  {
    var near := a + (Zeros(n) + [1]);
    if a == [] {
      assert near == Zeros(n) + [1];
      ZerosThenOne(y, n);
    } else if y[0] == a[0] {
      assert near[1..] == a[1..] + (Zeros(n) + [1]);
      NothingBetween(y[1..], a[1..], n);
    }
  }

  /** Every version of at most n components is above both or below the higher one. */
  lemma JustAboveSplits(x: string, v: string, n: nat)
    requires ReleaseTuple(v) != [] && |ReleaseTuple(x)| <= n
    ensures if Vgt(x, v) then Vgt(x, JustAbove(v, n)) else Vgt(JustAbove(v, n), x)
    ensures !Veq(x, JustAbove(v, n))
    ensures Vgt(x, JustAbove(v, n)) ==> !Vgt(JustAbove(v, n), x)
  {
    var near, y, a := ReleaseTuple(JustAbove(v, n)), ReleaseTuple(x), ReleaseTuple(v);
    JustAboveReadsBack(v, n);
    StripKeepsValue(Release(x));
    ExtensionIsGreater(a, Zeros(n) + [1]);
    GreaterIsIrreflexive(near);
    if Vgt(x, v) {
      NothingBetween(y, a, n);
      GreaterIsAsymmetric(y, near);
    } else if !TupleGreater(near, y) {
      NotGreaterIsTransitive(near, y, a);
    }
    if TupleGreater(near, y) {
      GreaterIsAsymmetric(near, y);
    }
  }

  /** A cap that is no equality and admits something above v admits what is just above v. */
  lemma JustAboveMeetsCap(c: string, v: string, current: string, n: nat)
    requires ReleaseTuple(v) != [] && Vgt(current, v) && !Excludes(c, current)
    requires ParseCap(c).Some? ==> |ReleaseTuple(ParseCap(c).value.version)| <= n
    requires ParseCap(c).Some? ==> ParseCap(c).value.op != "==" && ParseCap(c).value.op != "==="
    ensures !Excludes(c, JustAbove(v, n))
  {
    if ParseCap(c).Some? {
      var x := ParseCap(c).value.version;
      JustAboveSplits(x, v, n);
      GreaterIsAsymmetric(ReleaseTuple(current), ReleaseTuple(v));
      if Vgt(x, current) {
        BelowBoth(x, v, current);
      }
      if !Vgt(current, x) && !Vgt(x, v) {
        NotGreaterIsTransitive(ReleaseTuple(current), ReleaseTuple(x), ReleaseTuple(v));
      }
    }
  }

  /** The version passes, and misses a lower bound that was overwritten. */
  predicate InGap(ts: seq<Token>, current: string) {
    && LastFloor(ts).Some? && !Vgt(LastFloor(ts).value, current) && CapsHold(ts, current)
    && exists t :: t in ts && Alone(t).floor.Some? && Vgt(Alone(t).floor.value, current)
  }

  predicate HasCap(t: Token, cap: Cap) {
    exists c :: c in Alone(t).caps && ParseCap(c) == Some(cap)
  }

  /** No version that a token names has more than n components. */
  ghost predicate AtMostComponents(ts: seq<Token>, n: nat) {
    forall t | t in ts ::
      && (Alone(t).floor.Some? ==> |ReleaseTuple(Alone(t).floor.value)| <= n)
      && forall cap | HasCap(t, cap) :: |ReleaseTuple(cap.version)| <= n
  }

  lemma TokenComponents(t: Token) returns (n: nat)
    ensures AtMostComponents([t], n)
  {
    var pin := Alone(t);
    n := if pin.floor.Some? then |ReleaseTuple(pin.floor.value)| else 0;
    if pin.caps != [] && ParseCap(pin.caps[0]).Some? {
      n := n + |ReleaseTuple(ParseCap(pin.caps[0]).value.version)|;
    }
    forall cap | HasCap(t, cap)
      ensures ParseCap(pin.caps[0]) == Some(cap)
    {
      assert |pin.caps| == 1;
    }
  }

  /** Every token list has a bound on the components of its versions. */
  lemma {:induction false} ComponentsAreBounded(ts: seq<Token>) returns (n: nat)
    ensures AtMostComponents(ts, n)
  {
    n := 0;
    if ts != [] {
      var first := TokenComponents(ts[0]);
      var rest := ComponentsAreBounded(ts[1..]);
      n := first + rest;
      assert ts == [ts[0]] + ts[1..];
      assert ts[0] in [ts[0]];
    }
  }

  /** Something in the gap has the release of a version that an equality cap names. */
  ghost predicate EqualityInGap(ts: seq<Token>) {
    exists t, cap :: t in ts && HasCap(t, cap) && (cap.op == "==" || cap.op == "===") && InGap(ts, cap.version)
  }

  /** The last lower bound, with 0 for one that has no numeric release. */
  function Base(v: string): string {
    if ReleaseTuple(v) == [] then PrintNat(0) else v
  }

  lemma SameReleaseSameGap(ts: seq<Token>, a: string, b: string)
    requires Veq(a, b)
    ensures InGap(ts, a) <==> InGap(ts, b)
  {
    assert forall c :: Excludes(c, a) <==> Excludes(c, b);
    assert forall caps :: CapExcludes(caps, a) <==> CapExcludes(caps, b);
  }

  /** If anything is in the gap, so is one of the versions named: the last lower bound,
      what is just above it, or the version of an equality cap. */
  lemma {:induction false} GapHasNamedVersion(ts: seq<Token>, n: nat, current: string)
    requires AtMostComponents(ts, n) && InGap(ts, current)
    ensures
      var last := LastFloor(ts).value;
      InGap(ts, last) || InGap(ts, Base(last)) || InGap(ts, JustAbove(Base(last), n)) || EqualityInGap(ts)
  {
    var last := LastFloor(ts).value;
    if t, cap :| t in ts && HasCap(t, cap) && (cap.op == "==" || cap.op == "===") {
      EqualityMeansThatVersion(ts, t, cap, current);
    } else if Veq(current, last) {
      SameReleaseSameGap(ts, current, last);
    } else if Veq(current, Base(last)) {
      SameReleaseSameGap(ts, current, Base(last));
    } else {
      AboveBase(last, current);
      JustAboveInGap(ts, n, current);
    }
  }

  lemma EqualityMeansThatVersion(ts: seq<Token>, t: Token, cap: Cap, current: string)
    requires t in ts && HasCap(t, cap) && (cap.op == "==" || cap.op == "===") && InGap(ts, current)
    ensures EqualityInGap(ts)
  {
    var c :| c in Alone(t).caps && ParseCap(c) == Some(cap);
    assert !Excludes(c, current);
    SameReleaseSameGap(ts, cap.version, current);
  }

  lemma AboveBase(last: string, current: string)
    requires !Vgt(last, current) && !Veq(current, last) && !Veq(current, Base(last))
    ensures ReleaseTuple(Base(last)) != [] && Vgt(current, Base(last))
  {
    NumeralRelease(0);
    GreaterIsTotal(ReleaseTuple(current), ReleaseTuple(Base(last)));
    if ReleaseTuple(last) == [] {
      StripKeepsValue(Release(current));
      assert !TupleGreater([0], ReleaseTuple(current));
    }
  }

  lemma JustAboveInGap(ts: seq<Token>, n: nat, current: string)
    requires AtMostComponents(ts, n) && InGap(ts, current)
    requires forall t, cap | t in ts && HasCap(t, cap) :: cap.op != "==" && cap.op != "==="
    requires
      var base := Base(LastFloor(ts).value);
      ReleaseTuple(base) != [] && Vgt(current, base)
    ensures InGap(ts, JustAbove(Base(LastFloor(ts).value), n))
  {
    var last := LastFloor(ts).value;
    var base := Base(last);
    var near := JustAbove(base, n);
    LastFloorIsATokens(ts);
    forall t | t in ts
      ensures !CapExcludes(Alone(t).caps, near)
    {
      forall c | c in Alone(t).caps
        ensures !Excludes(c, near)
      {
        assert !Excludes(c, current);
        assert ParseCap(c).Some? ==> HasCap(t, ParseCap(c).value);
        JustAboveMeetsCap(c, base, current, n);
      }
    }
    assert !Vgt(last, near) by {
      JustAboveSplits(last, base, n);
      GreaterIsIrreflexive(ReleaseTuple(last));
      assert !Vgt(last, base);
      GreaterIsAsymmetric(ReleaseTuple(near), ReleaseTuple(last));
    }
    var t :| t in ts && Alone(t).floor.Some? && Vgt(Alone(t).floor.value, current);
    var high := Alone(t).floor.value;
    GreaterIsAsymmetric(ReleaseTuple(current), ReleaseTuple(base));
    BelowBoth(high, base, current);
    JustAboveSplits(high, base, n);
  }

  /** None of the versions named is in the gap: the last lower bound, what is just above
      it for versions of up to n components, or the version of an equality cap. */
  ghost predicate NoNamedGap(ts: seq<Token>, n: nat) {
    LastFloor(ts).Some? ==>
      var last := LastFloor(ts).value;
      && !InGap(ts, last) && !InGap(ts, Base(last)) && !InGap(ts, JustAbove(Base(last), n))
      && !EqualityInGap(ts)
  }

  /** A requirement accepts exactly the versions that meet each of its tokens if and only
      if none of the finitely many versions it names passes below an overwritten lower bound. */
  lemma EveryTokenIff(ts: seq<Token>, n: nat)
    requires AtMostComponents(ts, n)
    ensures MeansEveryToken(ts) <==> NoNamedGap(ts, n)
  {
    LastFloorIsATokens(ts);
    forall current
      ensures (Passes(Parsed(ts), current) <==> EveryTokenPasses(ts, current)) <==> !InGap(ts, current)
    {
      GapIsTheDifference(ts, current);
      if InGap(ts, current) {
        GapHasNamedVersion(ts, n, current);
      }
    }
    if current :| InGap(ts, current) {
      GapHasNamedVersion(ts, n, current);
    }
  }

  /** Every token list has such a bound, so the test is there for each of them. */
  lemma EveryListIsDecided(ts: seq<Token>)
    ensures exists n: nat :: AtMostComponents(ts, n) && (MeansEveryToken(ts) <==> NoNamedGap(ts, n))
  {
    var n := ComponentsAreBounded(ts);
    EveryTokenIff(ts, n);
  }

  lemma GapIsTheDifference(ts: seq<Token>, current: string)
    ensures (Passes(Parsed(ts), current) <==> EveryTokenPasses(ts, current)) <==> !InGap(ts, current)
  {
    LastFloorDecides(ts, current);
    PassesWithoutEveryTokenIff(ts, current);
    LastFloorIsATokens(ts);
  }

  lemma NumeralRelease(n: nat)
    ensures ReleaseTuple(PrintNat(n)) == [n]
  {
    NumeralsAreFree(n);
    ParsePrint(n);
    SplitFree(PrintNat(n), SEPARATORS);
    assert NumericPrefix([PrintNat(n)]) == [n] + NumericPrefix([PrintNat(n)][1..]);
  }

  /** A later, lower bound lets in what the earlier one forbids; in the other order it stays out. */
  lemma {:induction false} LaterFloorOverwrites(low: nat, now: nat, high: nat)
    requires low <= now < high
    ensures
      var atLeastLow, atLeastHigh := Token(">=", PrintNat(low)), Token(">=", PrintNat(high));
      && Passes(Parsed([atLeastHigh, atLeastLow]), PrintNat(now))
      && !Passes(Parsed([atLeastLow, atLeastHigh]), PrintNat(now))
  {
    NumeralOrder(low, now);
    NumeralOrder(high, now);
    TwoLowerBounds(PrintNat(high), PrintNat(low), PrintNat(now));
    TwoLowerBounds(PrintNat(low), PrintNat(high), PrintNat(now));
  }

  lemma NumeralOrder(a: nat, b: nat)
    ensures Vgt(PrintNat(a), PrintNat(b)) <==> a > b
  {
    NumeralRelease(a);
    NumeralRelease(b);
    assert [a][1..] == [] && !TupleGreater([], [b][1..]);
  }

  lemma TwoLowerBounds(first: string, second: string, current: string)
    ensures Passes(Parsed([Token(">=", first), Token(">=", second)]), current) <==> !Vgt(second, current)
  {
    var t, u := Token(">=", first), Token(">=", second);
    assert [t, u][1..] == [u] && [u][1..] == [];
    assert Alone(t) == Pin(Some(first), []) && Alone(u) == Pin(Some(second), []);
    assert LastFloor([u]) == Some(second);
    LastFloorDecides([t, u], current);
  }

  // ---- Grouping floors ----

  datatype Group = Group(key: string, members: seq<nat>)

  predicate KeysDiffer(groups: seq<Group>) {
    forall g, h | 0 <= g < h < |groups| :: !Veq(groups[g].key, groups[h].key)
  }

  predicate Holds(group: Group, floors: seq<string>, n: nat)
    requires n <= |floors|
  {
    group.members != [] && forall m | m in group.members :: m < n && Veq(group.key, floors[m])
  }

  predicate Placed(groups: seq<Group>, i: nat) {
    exists g :: 0 <= g < |groups| && i in groups[g].members
  }

  ghost predicate Grouped(groups: seq<Group>, floors: seq<string>, n: nat)
    requires n <= |floors|
  {
    && KeysDiffer(groups)
    && (forall g | 0 <= g < |groups| :: Holds(groups[g], floors, n))
    && (forall i: nat | i < n :: Placed(groups, i))
  }

  /** `_floor_group`: a floor joins the first group whose key it equals. */
  method FloorGroups(floors: seq<string>) returns (groups: seq<Group>)
    ensures Grouped(groups, floors, |floors|)
  {
    groups := [];
    for i := 0 to |floors|
      invariant Grouped(groups, floors, i)
    {
      var g := 0;
      while g < |groups| && !Veq(groups[g].key, floors[i])
        invariant 0 <= g <= |groups|
        invariant forall k | 0 <= k < g :: !Veq(groups[k].key, floors[i])
      {
        g := g + 1;
      }
      ghost var before := groups;
      if g < |groups| {
        groups := groups[g := Group(groups[g].key, groups[g].members + [i])];
      } else {
        groups := groups + [Group(floors[i], [i])];
      }
      GroupStep(before, groups, floors, i, g);
    }
  }

  lemma GroupStep(before: seq<Group>, after: seq<Group>, floors: seq<string>, i: nat, g: nat)
    requires i < |floors| && Grouped(before, floors, i) && g <= |before|
    requires forall k | 0 <= k < g :: !Veq(before[k].key, floors[i])
    requires g < |before| ==> Veq(before[g].key, floors[i])
    requires
      after == if g < |before| then before[g := Group(before[g].key, before[g].members + [i])]
               else before + [Group(floors[i], [i])]
    ensures Grouped(after, floors, i + 1)
  {
    forall j: nat | j < i + 1
      ensures Placed(after, j)
    {
      if j < i {
        assert Placed(before, j);
        var h :| 0 <= h < |before| && j in before[h].members;
        assert j in after[h].members;
      } else {
        assert j in after[g].members;
      }
    }
    forall h | 0 <= h < |after|
      ensures Holds(after[h], floors, i + 1)
    {
      assert h < |before| ==> Holds(before[h], floors, i);
    }
  }

  /** More than one group means exactly that two floors differ as versions. */
  lemma DriftIff(groups: seq<Group>, floors: seq<string>)
    requires Grouped(groups, floors, |floors|)
    ensures |groups| > 1 <==> exists i, j :: 0 <= i < j < |floors| && !Veq(floors[i], floors[j])
  {
    if |groups| > 1 {
      var m, n := groups[0].members[0], groups[1].members[0];
      assert m in groups[0].members && n in groups[1].members;
      assert !Veq(floors[m], floors[n]);
      assert m != n;
      if m < n {
        assert 0 <= m < n < |floors| && !Veq(floors[m], floors[n]);
      } else {
        assert 0 <= n < m < |floors| && !Veq(floors[n], floors[m]);
      }
    }
    if i, j :| 0 <= i < j < |floors| && !Veq(floors[i], floors[j]) {
      assert Placed(groups, i) && Placed(groups, j);
      var g :| 0 <= g < |groups| && i in groups[g].members;
      var h :| 0 <= h < |groups| && j in groups[h].members;
      assert g != h;
    }
  }
}
