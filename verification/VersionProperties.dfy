/** What versions keep when written and parsed again, and how they are ordered. */
module VersionProperties {
  import opened Wrappers
  import opened Sequences
  import opened Versions

  // Parsing what was written

  predicate WellFormed(v: Version) {
    && v.major < I64_LIMIT && v.minor < I64_LIMIT && v.patch < I64_LIMIT
    && (v.prerelease == "" || IdentifiersValid(v.prerelease))
    && (v.build.Some? ==> IdentifiersValid(v.build.value))
  }

  lemma {:induction false} DecimalIs(n: nat)
    ensures Decimal(n) != [] && Digits(Decimal(n)) && Value(Decimal(n)) == n
  {
    if n >= 10 {
      DecimalIs(n / 10);
      assert Decimal(n)[..|Decimal(n)| - 1] == Decimal(n / 10);
    } else {
      assert Decimal(n)[..0] == [];
    }
  }

  lemma {:induction false} SplitOnceAt(left: string, c: char, right: string)
    requires c !in left
    ensures SplitOnce(left + ([c] + right), c) == Some((left, right))
  {
    var s := left + ([c] + right);
    assert s[..|left|] == left && s[|left| + 1..] == right;
    IndexOfIs(s, c, |left|);
  }

  lemma {:induction false} SplitOnceNever(s: string, c: char)
    requires c !in s
    ensures SplitOnce(s, c) == None && Split(s, c) == [s]
  {
    assert s[..|s|] == s;
    IndexOfIs(s, c, |s|);
  }

  lemma {:induction false} SplitAt(left: string, c: char, right: string)
    requires c !in left
    ensures Split(left + ([c] + right), c) == [left] + Split(right, c)
  {
    var s := left + ([c] + right);
    assert s[..|left|] == left && s[|left| + 1..] == right;
    IndexOfIs(s, c, |left|);
  }

  lemma {:induction false} IdentifiersHoldNoPlus(s: string)
    requires forall i :: 0 <= i < |Split(s, '.')| ==> Identifier(Split(s, '.')[i])
    ensures '+' !in s
  {
    var i, parts := IndexOf(s, '.'), Split(s, '.');
    assert Identifier(parts[0]);
    if i < |s| {
      var rest := s[i + 1..];
      assert forall j :: 0 <= j < |Split(rest, '.')| ==> Split(rest, '.')[j] == parts[j + 1];
      IdentifiersHoldNoPlus(rest);
      assert s == parts[0] + (['.'] + rest);
    }
  }

  lemma {:induction false} ValidHoldsNoPlus(s: string)
    requires IdentifiersValid(s)
    ensures '+' !in s
  {
    hide Split;
    IdentifiersHoldNoPlus(s);
  }

  lemma {:induction false} SplitOnceParts(s: string, c: char)
    requires SplitOnce(s, c).Some?
    ensures var (left, right) := SplitOnce(s, c).value; s == left + ([c] + right) && c !in left
  {
  }

  lemma {:induction false} JoinSplit(s: string, c: char)
    ensures Join(Split(s, c), c) == s
  {
    hide Join;
    var i := IndexOf(s, c);
    if i < |s| {
      JoinSplit(s[i + 1..], c);
      JoinFront(s[..i], Split(s[i + 1..], c), c);
      assert s == s[..i] + ([c] + s[i + 1..]);
    } else {
      JoinOne(s, c);
    }
  }

  lemma {:induction false} SplitJoin(parts: seq<string>, c: char)
    requires parts != [] && forall i :: 0 <= i < |parts| ==> c !in parts[i]
    ensures Split(Join(parts, c), c) == parts
  {
    if |parts| == 1 {
      SplitOnceNever(parts[0], c);
    } else {
      SplitJoin(parts[1..], c);
      SplitAt(parts[0], c, Join(parts[1..], c));
      assert parts == [parts[0]] + parts[1..];
    }
  }

  /** Digits and dots, and the first a digit. */
  lemma {:induction false} JoinedNumbers(parts: seq<string>)
    requires parts != [] && AllNumbers(parts)
    ensures var text := Join(parts, '.');
            && text != [] && Digit(text[0]) && '-' !in text && '+' !in text
            && Split(text, '.') == parts
  {
    hide Value, Split;
    assert Number(parts[0]);
    forall i | 0 <= i < |parts| ensures '.' !in parts[i] { assert Number(parts[i]); }
    SplitJoin(parts, '.');
    if |parts| > 1 { JoinedNumbers(parts[1..]); }
  }

  /**
    * How a text spells a version: an optional `v`, one to three numbers of 63 bits between dots with missing ones
    * zero, a pre-release behind a hyphen, and build metadata behind a plus sign.
    */
  predicate Spells(value: string, v: Version, marked: bool, numbers: seq<string>) {
    && 1 <= |numbers| <= 3 && AllNumbers(numbers)
    && v.major == Padded(numbers, 0) && v.minor == Padded(numbers, 1) && v.patch == Padded(numbers, 2)
    && (v.prerelease == "" || IdentifiersValid(v.prerelease))
    && (v.build.Some? ==> IdentifiersValid(v.build.value))
    && value == (if marked then "v" else "") + Join(numbers, '.') + Suffix(v)
  }

  function Padded(numbers: seq<string>, i: nat): nat
    requires AllNumbers(numbers)
  {
    if i < |numbers| then assert Number(numbers[i]); Value(numbers[i]) else 0
  }

  function Suffix(v: Version): string {
    (if v.prerelease == "" then "" else "-" + v.prerelease)
    + (match v.build case None => "" case Some(build) => "+" + build)
  }

  lemma {:induction false} CoreOfNumbers(marked: bool, numbers: seq<string>)
    requires 1 <= |numbers| <= 3 && AllNumbers(numbers)
    ensures var text := (if marked then "v" else "") + Join(numbers, '.');
            && Core(text) == Some((Padded(numbers, 0), Padded(numbers, 1), Padded(numbers, 2)))
            && '-' !in text && '+' !in text
  {
    hide Value, Split, Join;
    JoinedNumbers(numbers);
    var joined := Join(numbers, '.');
    var text := (if marked then "v" else "") + joined;
    assert marked ==> text[0] == 'v' && text[1..] == joined;
    assert !marked ==> text == joined;
  }

  lemma {:induction false} ParsesCore(text: string, core: string, v: Version)
    requires Core(core) == Some((v.major, v.minor, v.patch)) && '-' !in core && '+' !in core
    requires v.prerelease == "" || IdentifiersValid(v.prerelease)
    requires text == core + if v.prerelease == "" then "" else "-" + v.prerelease
    ensures ParseCore(text, v.build) == Some(v) && '+' !in text
  {
    hide Core, IdentifiersValid, SplitOnce;
    if v.prerelease == "" {
      assert text == core;
      SplitOnceNever(core, '-');
    } else {
      ValidHoldsNoPlus(v.prerelease);
      SplitOnceAt(core, '-', v.prerelease);
    }
  }

  lemma {:induction false} SpelledParses(value: string, v: Version, marked: bool, numbers: seq<string>)
    requires Spells(value, v, marked, numbers)
    ensures Parse(value) == Some(v)
  {
    hide Core, IdentifiersValid, SplitOnce, ParseCore, Join, Padded;
    var core := (if marked then "v" else "") + Join(numbers, '.');
    CoreOfNumbers(marked, numbers);
    var text := core + if v.prerelease == "" then "" else "-" + v.prerelease;
    ParsesCore(text, core, v);
    if v.build.Some? {
      ValidHoldsNoPlus(v.build.value);
      SplitOnceAt(text, '+', v.build.value);
      assert value == text + (['+'] + v.build.value);
    } else {
      assert value == text;
      SplitOnceNever(text, '+');
    }
  }

  lemma {:induction false} CoreIsNumbers(core: string) returns (marked: bool, numbers: seq<string>)
    requires Core(core).Some?
    ensures 1 <= |numbers| <= 3 && AllNumbers(numbers) && core == (if marked then "v" else "") + Join(numbers, '.')
    ensures Core(core) == Some((Padded(numbers, 0), Padded(numbers, 1), Padded(numbers, 2)))
  {
    hide Value, Split, Join;
    marked := core != [] && core[0] == 'v';
    var text := if marked then core[1..] else core;
    numbers := Split(text, '.');
    JoinSplit(text, '.');
    assert marked ==> core == "v" + text;
  }

  lemma {:induction false} ParsedCoreParts(text: string, build: Option<string>) returns (core: string)
    requires ParseCore(text, build).Some?
    ensures var v := ParseCore(text, build).value;
            && Core(core) == Some((v.major, v.minor, v.patch)) && v.build == build
            && (v.prerelease == "" || IdentifiersValid(v.prerelease))
            && text == core + if v.prerelease == "" then "" else "-" + v.prerelease
  {
    hide Core, SplitOnce, Split;
    if SplitOnce(text, '-').Some? {
      SplitOnceParts(text, '-');
      core := SplitOnce(text, '-').value.0;
    } else {
      core := text;
    }
  }

  lemma {:induction false} ParsedParts(value: string) returns (text: string)
    requires Parse(value).Some?
    ensures var v := Parse(value).value;
            && ParseCore(text, v.build) == Some(v) && (v.build.Some? ==> IdentifiersValid(v.build.value))
            && value == text + (match v.build case None => "" case Some(build) => "+" + build)
  {
    hide SplitOnce, IdentifiersValid;
    if SplitOnce(value, '+').Some? {
      SplitOnceParts(value, '+');
      text := SplitOnce(value, '+').value.0;
      var core := ParsedCoreParts(text, Some(SplitOnce(value, '+').value.1));
    } else {
      text := value;
      var core := ParsedCoreParts(text, None);
      assert value == text + "";
    }
  }

  lemma {:induction false} ParsedIsSpelled(value: string) returns (marked: bool, numbers: seq<string>)
    requires Parse(value).Some?
    ensures Spells(value, Parse(value).value, marked, numbers)
  {
    hide Core, IdentifiersValid, Join, Padded, Parse, ParseCore;
    var v := Parse(value).value;
    var text := ParsedParts(value);
    var core := ParsedCoreParts(text, v.build);
    marked, numbers := CoreIsNumbers(core);
  }

  /** Exactly the texts that spell a version are parsed, to the version they spell. */
  lemma {:induction false} ParseIff(value: string, v: Version)
    ensures Parse(value) == Some(v) <==> exists marked, numbers :: Spells(value, v, marked, numbers)
  {
    hide Parse, Spells;
    if Parse(value) == Some(v) {
      var marked, numbers := ParsedIsSpelled(value);
    }
    if exists marked, numbers :: Spells(value, v, marked, numbers) {
      var marked, numbers :| Spells(value, v, marked, numbers);
      SpelledParses(value, v, marked, numbers);
    }
  }

  lemma {:induction false} JoinThree(a: string, b: string, c: string)
    ensures Join([a, b, c], '.') == a + ("." + (b + ("." + c)))
  {
    assert [a, b, c][1..] == [b, c] && [b, c][1..] == [c];
    assert Join([b, c], '.') == b + ("." + c);
  }

  /** A version that is written and parsed again is the same version. */
  lemma {:induction false} WireRoundTrip(v: Version)
    requires WellFormed(v)
    ensures Parse(Wire(v)) == Some(v)
  {
    hide Decimal, Value, Parse, IdentifiersValid, Join;
    DecimalIs(v.major);
    DecimalIs(v.minor);
    DecimalIs(v.patch);
    var numbers := [Decimal(v.major), Decimal(v.minor), Decimal(v.patch)];
    JoinThree(Decimal(v.major), Decimal(v.minor), Decimal(v.patch));
    assert AllNumbers(numbers);
    assert Wire(v) == "" + Join(numbers, '.') + Suffix(v);
    SpelledParses(Wire(v), v, false, numbers);
  }

  lemma {:induction false} ParsedIsWellFormed(value: string)
    requires Parse(value).Some?
    ensures WellFormed(Parse(value).value)
  {
    hide Parse, IdentifiersValid, Value, Join;
    var marked, numbers := ParsedIsSpelled(value);
  }

  /** Parsing an emitted version emits the same version again. */
  lemma {:induction false} EmittedIsStable(value: string)
    requires Parse(value).Some?
    ensures Parse(Wire(Parse(value).value)) == Parse(value)
  {
    hide Parse, Wire, WellFormed;
    ParsedIsWellFormed(value);
    WireRoundTrip(Parse(value).value);
  }

  // Orders

  /** Numeric identifiers without redundant zeros. */
  predicate CanonicalPart(s: string) {
    Identifier(s) && (Digits(s) ==> s == "0" || s[0] != '0')
  }

  predicate CanonicalParts(parts: seq<string>) {
    forall i :: 0 <= i < |parts| ==> CanonicalPart(parts[i])
  }

  predicate Canonical(v: Version) {
    v.prerelease == "" || CanonicalParts(Split(v.prerelease, '.'))
  }

  function Flip(o: Ordering): Ordering {
    match o case Less => Greater case Equal => Equal case Greater => Less
  }

  lemma {:induction false} TextOrder(a: string, b: string)
    ensures CompareText(b, a) == Flip(CompareText(a, b))
    ensures CompareText(a, b) == Equal <==> a == b
  {
    if a != [] && b != [] && a[0] == b[0] {
      TextOrder(a[1..], b[1..]);
      assert a == [a[0]] + a[1..] && b == [b[0]] + b[1..];
    }
  }

  /** The order of texts by their characters: at the first difference, and a text comes after its own beginnings. */
  predicate TextBefore(a: string, b: string) {
    exists i :: 0 <= i <= |a| && i <= |b| && a[..i] == b[..i] && BeforeAt(a, b, i)
  }

  predicate BeforeAt(a: string, b: string, i: nat)
    requires i <= |a| && i <= |b|
  {
    if i < |a| then i < |b| && (a[i] as int) < (b[i] as int) else i < |b|
  }

  lemma {:induction false} TextBeforeTail(a: string, b: string)
    requires a != [] && b != [] && a[0] == b[0]
    ensures TextBefore(a, b) <==> TextBefore(a[1..], b[1..])
  {
    if TextBefore(a[1..], b[1..]) {
      var i :| 0 <= i <= |a[1..]| && i <= |b[1..]| && a[1..][..i] == b[1..][..i] && BeforeAt(a[1..], b[1..], i);
      assert a[..i + 1] == [a[0]] + a[1..][..i] && b[..i + 1] == [b[0]] + b[1..][..i];
      assert BeforeAt(a, b, i + 1);
    }
    if TextBefore(a, b) {
      var i :| 0 <= i <= |a| && i <= |b| && a[..i] == b[..i] && BeforeAt(a, b, i);
      assert i > 0;
      assert a[1..][..i - 1] == a[..i][1..] && b[1..][..i - 1] == b[..i][1..];
      assert BeforeAt(a[1..], b[1..], i - 1);
    }
  }

  lemma {:induction false} TextBeforeHead(a: string, b: string)
    requires a == [] || b == [] || a[0] != b[0]
    ensures TextBefore(a, b) <==> BeforeAt(a, b, 0)
  {
    if BeforeAt(a, b, 0) {
      assert a[..0] == b[..0];
    }
    if TextBefore(a, b) {
      var i :| 0 <= i <= |a| && i <= |b| && a[..i] == b[..i] && BeforeAt(a, b, i);
      assert i > 0 ==> a[..i][0] == b[..i][0];
    }
  }

  /** The comparison of texts is that order, both ways. */
  lemma {:induction false} CompareTextIs(a: string, b: string)
    ensures CompareText(a, b) == Less <==> TextBefore(a, b)
    ensures CompareText(a, b) == Greater <==> TextBefore(b, a)
  {
    hide TextBefore;
    if a != [] && b != [] && a[0] == b[0] {
      CompareTextIs(a[1..], b[1..]);
      TextBeforeTail(a, b);
      TextBeforeTail(b, a);
    } else {
      TextBeforeHead(a, b);
      TextBeforeHead(b, a);
    }
  }

  lemma {:induction false} TextTransitive(a: string, b: string, c: string)
    requires CompareText(a, b) == Less && CompareText(b, c) == Less
    ensures CompareText(a, c) == Less
  {
    if a != [] && a[0] == b[0] == c[0] { TextTransitive(a[1..], b[1..], c[1..]); }
  }

  lemma {:induction false} ValueBounds(s: string)
    requires Digits(s) && s != []
    ensures s[0] != '0' ==> Power(|s| - 1) <= Value(s)
    ensures Value(s) < Power(|s|)
  {
    var front := s[..|s| - 1];
    if front != [] { ValueBounds(front); } else { assert Value(front) == 0; }
  }

  function Power(n: nat): nat {
    if n == 0 then 1 else 10 * Power(n - 1)
  }

  lemma {:induction false} PowerMonotone(m: nat, n: nat)
    requires m <= n
    ensures Power(m) <= Power(n)
  {
    if m < n { PowerMonotone(m, n - 1); }
  }

  /** Without redundant zeros a number is spelled in one way only. */
  lemma {:induction false} OneSpelling(a: string, b: string)
    requires Digits(a) && Digits(b) && a != [] && b != [] && Value(a) == Value(b)
    requires (a == "0" || a[0] != '0') && (b == "0" || b[0] != '0')
    ensures a == b
  {
    hide Power;
    SameLength(a, b);
    SameDigits(a, b);
  }

  lemma {:induction false} ZeroValue()
    ensures Digits("0") && Value("0") == 0
  {
    assert "0"[..0] == [];
  }

  lemma {:induction false} PowerPositive(n: nat)
    ensures Power(n) >= 1
  {
    if n > 0 { PowerPositive(n - 1); }
  }

  lemma {:induction false} SameLength(a: string, b: string)
    requires Digits(a) && Digits(b) && a != [] && b != [] && Value(a) == Value(b)
    requires (a == "0" || a[0] != '0') && (b == "0" || b[0] != '0')
    ensures |a| == |b|
  {
    hide Power, Value;
    ZeroValue();
    ValueBounds(a);
    ValueBounds(b);
    PowerPositive(|a| - 1);
    PowerPositive(|b| - 1);
    if |a| < |b| { PowerMonotone(|a|, |b| - 1); } else if |b| < |a| { PowerMonotone(|b|, |a| - 1); }
  }

  lemma {:induction false} SameDigits(a: string, b: string)
    requires Digits(a) && Digits(b) && |a| == |b| && Value(a) == Value(b)
    ensures a == b
  {
    if a != [] {
      var n := |a| - 1;
      SameDigits(a[..n], b[..n]);
      assert a == a[..n] + [a[n]] && b == b[..n] + [b[n]];
    }
  }

  lemma {:induction false} PartOrder(a: string, b: string)
    requires CanonicalPart(a) && CanonicalPart(b) && a != b
    ensures CompareParts(a, b) != Equal && CompareParts(b, a) == Flip(CompareParts(a, b))
  {
    hide CompareText, Value;
    TextOrder(a, b);
    if U64(a).Some? && U64(b).Some? && U64(a) == U64(b) { OneSpelling(a, b); }
  }

  lemma {:induction false} PartTransitive(a: string, b: string, c: string)
    requires CanonicalPart(a) && CanonicalPart(b) && CanonicalPart(c)
    requires a != b && b != c && CompareParts(a, b) == Less && CompareParts(b, c) == Less
    ensures a != c && CompareParts(a, c) == Less
  {
    hide CompareText;
    PartOrder(a, b);
    if a != c {
      PartOrder(b, c);
      PartOrder(a, c);
      if U64(a).None? { TextTransitive(a, b, c); }
    }
  }

  lemma {:induction false} ListOrder(a: seq<string>, b: seq<string>)
    requires CanonicalParts(a) && CanonicalParts(b)
    ensures CompareLists(b, a) == Flip(CompareLists(a, b))
    ensures CompareLists(a, b) == Equal <==> a == b
  {
    hide CompareParts, CanonicalPart;
    if a != [] && b != [] {
      if a[0] == b[0] {
        ListOrder(a[1..], b[1..]);
        assert a == [a[0]] + a[1..] && b == [b[0]] + b[1..];
      } else {
        PartOrder(a[0], b[0]);
      }
    }
  }

  lemma {:induction false} ListTransitive(a: seq<string>, b: seq<string>, c: seq<string>)
    requires CanonicalParts(a) && CanonicalParts(b) && CanonicalParts(c)
    requires CompareLists(a, b) == Less && CompareLists(b, c) == Less
    ensures CompareLists(a, c) == Less
  {
    hide CompareParts, CanonicalPart;
    if a != [] && b != [] && c != [] {
      if a[0] == b[0] == c[0] {
        ListTransitive(a[1..], b[1..], c[1..]);
      } else if a[0] != b[0] && b[0] != c[0] {
        PartTransitive(a[0], b[0], c[0]);
      }
    }
  }

  lemma {:induction false} PreOrder(a: Version, b: Version)
    requires Canonical(a) && Canonical(b)
    ensures ComparePre(b.prerelease, a.prerelease) == Flip(ComparePre(a.prerelease, b.prerelease))
    ensures ComparePre(a.prerelease, b.prerelease) == Equal <==> a.prerelease == b.prerelease
  {
    hide Split, CompareLists, CanonicalParts, Join;
    if a.prerelease != "" && b.prerelease != "" {
      ListOrder(Split(a.prerelease, '.'), Split(b.prerelease, '.'));
      JoinSplit(a.prerelease, '.');
      JoinSplit(b.prerelease, '.');
    }
  }

  predicate SameUpToBuild(a: Version, b: Version) {
    a.major == b.major && a.minor == b.minor && a.patch == b.patch && a.prerelease == b.prerelease
  }

  /** Precedence is a strict order that leaves unordered exactly the versions that differ in build metadata only. */
  lemma {:induction false} LessThanIsOrder(a: Version, b: Version)
    requires Canonical(a) && Canonical(b)
    ensures !(LessThan(a, b) && LessThan(b, a))
    ensures !LessThan(a, b) && !LessThan(b, a) <==> SameUpToBuild(a, b)
  {
    hide ComparePre, Canonical;
    PreOrder(a, b);
  }

  lemma {:induction false} LessThanTransitive(a: Version, b: Version, c: Version)
    requires Canonical(a) && Canonical(b) && Canonical(c) && LessThan(a, b) && LessThan(b, c)
    ensures LessThan(a, c)
  {
    hide CompareLists, Split, CanonicalParts;
    if CompareCore(a, b) == Equal && CompareCore(b, c) == Equal {
      if a.prerelease != "" && b.prerelease != "" && c.prerelease != "" {
        ListTransitive(Split(a.prerelease, '.'), Split(b.prerelease, '.'), Split(c.prerelease, '.'));
      }
    }
  }

  // Redundant zeros

  /** Where two lists first differ. */
  function FirstDifference(a: seq<string>, b: seq<string>): (i: nat)
    ensures i <= |a| && i <= |b| && a[..i] == b[..i] && (i < |a| && i < |b| ==> a[i] != b[i])
  {
    if a == [] || b == [] || a[0] != b[0] then 0
    else
      var i := 1 + FirstDifference(a[1..], b[1..]);
      assert a[..i] == [a[0]] + a[1..][..i - 1] && b[..i] == [b[0]] + b[1..][..i - 1];
      i
  }

  /** Two spellings of one 64-bit number where the lists first differ. */
  predicate Respelled(a: seq<string>, b: seq<string>) {
    var i := FirstDifference(a, b);
    i < |a| && i < |b| && U64(a[i]).Some? && U64(a[i]) == U64(b[i])
  }

  lemma {:induction false} ListsBothLess(a: seq<string>, b: seq<string>)
    ensures CompareLists(a, b) == Less && CompareLists(b, a) == Less <==> Respelled(a, b)
  {
    hide CompareText, U64;
    if a != [] && b != [] {
      if a[0] == b[0] {
        ListsBothLess(a[1..], b[1..]);
      } else {
        TextOrder(a[0], b[0]);
      }
    }
  }

  /** Precedence is asymmetric except between versions that first differ in how they spell one number. */
  lemma {:induction false} BothLessIff(a: Version, b: Version)
    ensures LessThan(a, b) && LessThan(b, a)
            <==> CompareCore(a, b) == Equal && a.prerelease != "" && b.prerelease != ""
                 && Respelled(Split(a.prerelease, '.'), Split(b.prerelease, '.'))
  {
    hide CompareLists, Split, Respelled;
    ListsBothLess(Split(a.prerelease, '.'), Split(b.prerelease, '.'));
  }

  /** A pair for which it is not: 1.0.0-1 and 1.0.0-01 are each less than the other. */
  lemma {:induction false} LeadingZeroIsLessBothWays()
    ensures var a, b := Version(1, 0, 0, "1", None), Version(1, 0, 0, "01", None);
            WellFormed(a) && WellFormed(b) && LessThan(a, b) && LessThan(b, a)
  {
    SplitOnceNever("1", '.');
    SplitOnceNever("01", '.');
    OneValue();
    assert Identifier("1") && Identifier("01");
    hide Split, Value;
    assert CompareLists(["1"], ["01"]) == Less && CompareLists(["01"], ["1"]) == Less;
  }

  lemma {:induction false} OneValue()
    ensures U64("1") == Some(1) && U64("01") == Some(1)
  {
    assert "1"[..0] == [] && "01"[..1] == "0" && "0"[..0] == [];
    assert Value("0") == 0 && Value("1") == 1 && Value("01") == 1;
  }

  // Semantic Versioning 2.0.0, section 11

  /** Identifiers of digits only compare as numbers, others as text, and numbers come first. */
  predicate SemverPartLess(a: string, b: string) {
    if Digits(a) && Digits(b) then Value(a) < Value(b)
    else if Digits(a) || Digits(b) then Digits(a)
    else TextBefore(a, b)
  }

  /** Left to right until a difference; a longer list of identifiers that starts alike comes later. */
  predicate SemverListLess(a: seq<string>, b: seq<string>) {
    exists i :: 0 <= i <= |a| && i <= |b| && a[..i] == b[..i] && LessAt(a, b, i)
  }

  predicate LessAt(a: seq<string>, b: seq<string>, i: nat)
    requires i <= |a| && i <= |b|
  {
    i < |b| && (i < |a| ==> SemverPartLess(a[i], b[i]))
  }

  /** A pre-release comes before its release. */
  predicate SemverLess(a: Version, b: Version) {
    || a.major < b.major
    || (a.major == b.major && a.minor < b.minor)
    || (a.major == b.major && a.minor == b.minor && a.patch < b.patch)
    || (a.major == b.major && a.minor == b.minor && a.patch == b.patch && a.prerelease != ""
        && (b.prerelease == "" || SemverListLess(Split(a.prerelease, '.'), Split(b.prerelease, '.'))))
  }

  /** An identifier of digits that is compared as text because its number does not fit in 64 bits. */
  predicate Huge(s: string) {
    Digits(s) && Value(s) >= U64_LIMIT
  }

  /** Text order misleads: a huge number on one side, and no 64-bit number on the other, ordered against section 11. */
  predicate Misled(a: string, b: string) {
    || (Huge(a) && Huge(b) && |a| != |b| && (TextBefore(a, b) <==> |b| < |a|))
    || (Huge(a) && !Digits(b) && TextBefore(b, a))
    || (!Digits(a) && Huge(b) && TextBefore(a, b))
  }

  lemma {:induction false} ValueFromFront(s: string)
    requires Digits(s) && s != []
    ensures Value(s) == (s[0] as int - '0' as int) * Power(|s| - 1) + Value(s[1..])
  {
    hide Power;
    var n := |s| - 1;
    if n == 0 {
      assert s[..0] == [] && s[1..] == [];
      PowerZero();
    } else {
      var front := s[..n];
      ValueFromFront(front);
      assert front[1..] == s[1..][..n - 1] && s[1..][n - 1] == s[n];
      PowerStep(n);
      TenTimes(s[0] as int - '0' as int, Power(n - 1));
    }
  }

  lemma {:induction false} PowerZero()
    ensures Power(0) == 1
  {
  }

  lemma {:induction false} PowerStep(n: nat)
    requires n > 0
    ensures Power(n) == 10 * Power(n - 1)
  {
  }

  lemma {:induction false} TenTimes(d: int, p: int)
    ensures 10 * (d * p) == d * (10 * p)
  {
  }

  /** Numbers of equally many digits are in text order. */
  lemma {:induction false} SameLengthOrder(a: string, b: string)
    requires Digits(a) && Digits(b) && |a| == |b|
    ensures CompareText(a, b) == Less <==> Value(a) < Value(b)
  {
    hide Power, Value;
    if a == [] {
      assert a == b;
    } else {
      ValueFromFront(a);
      ValueFromFront(b);
      SameLengthOrder(a[1..], b[1..]);
      BelowPower(a[1..]);
      BelowPower(b[1..]);
      FrontDecides(a[0] as int - '0' as int, b[0] as int - '0' as int, Power(|a| - 1), Value(a[1..]), Value(b[1..]));
    }
  }

  lemma {:induction false} BelowPower(s: string)
    requires Digits(s)
    ensures Value(s) < Power(|s|)
  {
    if s != [] { ValueBounds(s); }
  }

  lemma {:induction false} FrontDecides(d: int, e: int, p: int, x: int, y: int)
    requires 0 <= x < p && 0 <= y < p
    ensures d < e ==> d * p + x < e * p + y
    ensures d == e ==> (d * p + x < e * p + y <==> x < y)
    ensures d > e ==> d * p + x > e * p + y
  {
    if d < e {
      LeadingDigit(e, d + 1, p);
      OneMore(d, p);
    } else if d > e {
      LeadingDigit(d, e + 1, p);
      OneMore(e, p);
    }
  }

  lemma {:induction false} OneMore(d: int, p: int)
    ensures (d + 1) * p == d * p + p
  {
  }

  /** A shorter canonical number is smaller. */
  lemma {:induction false} ShorterIsSmaller(a: string, b: string)
    requires Digits(a) && Digits(b) && a != [] && b != [] && b[0] != '0' && |a| < |b|
    ensures Value(a) < Value(b)
  {
    hide Power, Value;
    ValueBounds(a);
    ValueBounds(b);
    PowerMonotone(|a|, |b| - 1);
  }

  lemma {:induction false} HugeOrder(a: string, b: string)
    requires CanonicalPart(a) && CanonicalPart(b) && Huge(a) && Huge(b)
    ensures |a| == |b| ==> (CompareText(a, b) == Less <==> Value(a) < Value(b))
    ensures |a| != |b| ==> (Value(a) < Value(b) <==> |a| < |b|)
  {
    hide Value, CompareText, IdentifierChar;
    ZeroValue();
    if |a| == |b| { SameLengthOrder(a, b); }
    else if |a| < |b| { ShorterIsSmaller(a, b); }
    else { ShorterIsSmaller(b, a); }
  }

  lemma {:induction false} HugeIsNoU64(s: string)
    requires CanonicalPart(s)
    ensures U64(s).None? <==> !Digits(s) || Huge(s)
    ensures U64(s).Some? ==> U64(s).value == Value(s)
  {
    hide Value;
    assert s[0] != '+' by { assert IdentifierChar(s[0]); }
  }

  /** Different identifiers are ordered as section 11 says exactly if text order does not mislead. */
  lemma {:induction false} PartsAsSemverIff(a: string, b: string)
    requires CanonicalPart(a) && CanonicalPart(b) && a != b
    ensures (CompareParts(a, b) == Less <==> SemverPartLess(a, b)) <==> !Misled(a, b)
  {
    hide CompareText, Value, U64, IdentifierChar, TextBefore;
    HugeIsNoU64(a);
    HugeIsNoU64(b);
    TextOrder(a, b);
    CompareTextIs(a, b);
    if U64(a).Some? && U64(b).Some? {
      if Value(a) == Value(b) { OneSpelling(a, b); }
    } else if Huge(a) && Huge(b) {
      HugeOrder(a, b);
    }
  }

  lemma {:induction false} NotLessItself(a: string)
    ensures !SemverPartLess(a, a)
  {
    hide TextBefore;
    CompareTextIs(a, a);
  }

  /** The lists first differ in two identifiers whose text order misleads. */
  predicate ListsMisled(a: seq<string>, b: seq<string>) {
    var i := FirstDifference(a, b);
    i < |a| && i < |b| && Misled(a[i], b[i])
  }

  lemma {:induction false} ListsAsSemverIff(a: seq<string>, b: seq<string>)
    requires CanonicalParts(a) && CanonicalParts(b)
    ensures (CompareLists(a, b) == Less <==> SemverListLess(a, b)) <==> !ListsMisled(a, b)
  {
    hide CompareParts, SemverPartLess, CanonicalPart, Misled;
    if b == [] {
    } else if a == [] {
      assert a[..0] == b[..0] && LessAt(a, b, 0);
    } else if a[0] == b[0] {
      ListsAsSemverIff(a[1..], b[1..]);
      SemverTail(a, b);
    } else {
      PartsAsSemverIff(a[0], b[0]);
      SemverHead(a, b);
    }
  }

  lemma {:induction false} SemverHead(a: seq<string>, b: seq<string>)
    requires a != [] && b != [] && a[0] != b[0]
    ensures SemverListLess(a, b) <==> SemverPartLess(a[0], b[0])
  {
    hide SemverPartLess;
    if SemverPartLess(a[0], b[0]) {
      assert a[..0] == b[..0] && LessAt(a, b, 0);
    }
    if SemverListLess(a, b) {
      var i :| 0 <= i <= |a| && i <= |b| && a[..i] == b[..i] && LessAt(a, b, i);
      assert i > 0 ==> a[..i][0] == b[..i][0];
    }
  }

  lemma {:induction false} SemverTail(a: seq<string>, b: seq<string>)
    requires a != [] && b != [] && a[0] == b[0]
    ensures SemverListLess(a, b) <==> SemverListLess(a[1..], b[1..])
  {
    hide SemverPartLess;
    NotLessItself(a[0]);
    if SemverListLess(a[1..], b[1..]) {
      var i :| 0 <= i <= |a[1..]| && i <= |b[1..]| && a[1..][..i] == b[1..][..i] && LessAt(a[1..], b[1..], i);
      assert a[..i + 1] == [a[0]] + a[1..][..i] && b[..i + 1] == [b[0]] + b[1..][..i];
      assert LessAt(a, b, i + 1);
    }
    if SemverListLess(a, b) {
      var i :| 0 <= i <= |a| && i <= |b| && a[..i] == b[..i] && LessAt(a, b, i);
      assert i > 0;
      assert a[1..][..i - 1] == a[..i][1..] && b[1..][..i - 1] == b[..i][1..];
      assert LessAt(a[1..], b[1..], i - 1);
    }
  }

  /**
    * Precedence is that of Semantic Versioning exactly if the versions do not first differ in a huge number whose
    * text order misleads.
    */
  lemma {:induction false} LessThanIsSemverIff(a: Version, b: Version)
    requires Canonical(a) && Canonical(b)
    ensures (LessThan(a, b) <==> SemverLess(a, b))
            <==> !(CompareCore(a, b) == Equal && a.prerelease != "" && b.prerelease != ""
                   && ListsMisled(Split(a.prerelease, '.'), Split(b.prerelease, '.')))
  {
    hide CompareLists, Split, CanonicalParts, ListsMisled, SemverListLess;
    if a.prerelease != "" && b.prerelease != "" {
      ListsAsSemverIff(Split(a.prerelease, '.'), Split(b.prerelease, '.'));
    }
  }

  predicate SmallParts(parts: seq<string>) {
    forall i :: 0 <= i < |parts| ==> !Huge(parts[i])
  }

  /** So with numbers of 64 bits it always is. */
  lemma {:induction false} LessThanIsSemver(a: Version, b: Version)
    requires Canonical(a) && Canonical(b)
    requires SmallParts(Split(a.prerelease, '.')) && SmallParts(Split(b.prerelease, '.'))
    ensures LessThan(a, b) <==> SemverLess(a, b)
  {
    hide Split, CanonicalParts, Huge, LessThan, SemverLess, TextBefore;
    LessThanIsSemverIff(a, b);
  }

  /**
    * A family for which it is not: a number of more digits that starts with 1, and one of at least 20 digits, fewer,
    * that starts with 9. The first is the larger one and yet it has the lower precedence.
    */
  lemma {:induction false} HugeNumbersAsText(a: string, b: string)
    requires Digits(a) && Digits(b) && |a| > |b| >= 20 && a[0] == '1' && b[0] == '9'
    ensures var v, w := Version(1, 0, 0, a, None), Version(1, 0, 0, b, None);
            WellFormed(v) && WellFormed(w) && LessThan(v, w) && SemverLess(w, v) && !SemverLess(v, w)
  {
    hide Value, Power;
    AtLeast20Digits(a);
    AtLeast20Digits(b);
    ShorterIsSmaller(b, a);
    assert '.' !in a && '.' !in b;
    SplitOnceNever(a, '.');
    SplitOnceNever(b, '.');
    assert Identifier(a) && Identifier(b);
    assert CompareText(a, b) == Less && CompareText(b, a) == Greater;
    assert U64(a).None? && U64(b).None?;
    hide CompareText, Split;
    SemverHead([a], [b]);
    SemverHead([b], [a]);
  }

  lemma {:induction false} AtLeast20Digits(s: string)
    requires Digits(s) && |s| >= 20 && (|s| == 20 ==> s[0] == '9') && s[0] != '0'
    ensures Huge(s)
  {
    hide Value, Power;
    ValueFromFront(s);
    PowerMonotone(19, |s| - 1);
    assert Power(19) == 10_000_000_000_000_000_000 by { TenToThe19(); }
    if |s| > 20 {
      PowerMonotone(20, |s| - 1);
      PowerStep(20);
      LeadingDigit(s[0] as int - '0' as int, 1, Power(|s| - 1));
    } else {
      LeadingDigit(s[0] as int - '0' as int, 9, Power(|s| - 1));
    }
  }

  lemma {:induction false} LeadingDigit(d: int, least: int, p: int)
    requires d >= least && p >= 0
    ensures d * p >= least * p
  {
    assert (d - least) * p >= 0;
  }

  lemma {:induction false} TenToThe19()
    ensures Power(19) == 10_000_000_000_000_000_000
  {
    assert Power(5) == 100_000;
    assert Power(10) == 100_000 * Power(5);
    assert Power(15) == 100_000 * Power(10);
    assert Power(19) == 10_000 * Power(15);
  }
}
