/** Versions as clients and servers exchange them: parsing, writing and precedence. */
module Versions {
  import opened Wrappers
  import opened Sequences

  const I64_LIMIT := 0x8000_0000_0000_0000
  const U64_LIMIT := 0x1_0000_0000_0000_0000

  datatype Version = Version(major: nat, minor: nat, patch: nat, prerelease: string, build: Option<string>)

  // Text

  function SplitOnce(s: string, c: char): Option<(string, string)> {
    var i := IndexOf(s, c);
    if i == |s| then None else Some((s[..i], s[i + 1..]))
  }

  function Split(s: string, c: char): (parts: seq<string>)
    ensures |parts| > 0
  {
    var i := IndexOf(s, c);
    if i == |s| then [s] else [s[..i]] + Split(s[i + 1..], c)
  }

  predicate Digit(c: char) {
    '0' <= c <= '9'
  }

  predicate Digits(s: string) {
    forall i :: 0 <= i < |s| ==> Digit(s[i])
  }

  function Value(s: string): nat
    requires Digits(s)
  {
    if s == [] then 0 else Value(s[..|s| - 1]) * 10 + (s[|s| - 1] as int - '0' as int)
  }

  function DigitOf(n: nat): char
    requires n < 10
  {
    ('0' as int + n) as char
  }

  function Decimal(n: nat): string {
    if n < 10 then [DigitOf(n)] else Decimal(n / 10) + [DigitOf(n % 10)]
  }

  predicate IdentifierChar(c: char) {
    Digit(c) || 'a' <= c <= 'z' || 'A' <= c <= 'Z' || c == '-'
  }

  predicate Identifier(s: string) {
    s != [] && forall i :: 0 <= i < |s| ==> IdentifierChar(s[i])
  }

  predicate IdentifiersValid(s: string) {
    s != [] && forall i :: 0 <= i < |Split(s, '.')| ==> Identifier(Split(s, '.')[i])
  }

  // Parsing and writing

  /** The numeric core: one to three numbers of 63 bits, missing ones zero. */
  function Core(core: string): Option<(nat, nat, nat)> {
    var text := if core != [] && core[0] == 'v' then core[1..] else core;
    var parts := Split(text, '.');
    if text == [] || text[0] == 'V' || |parts| > 3 then None
    else if !AllNumbers(parts) then None
    else Some((Value(parts[0]), if |parts| > 1 then Value(parts[1]) else 0, if |parts| > 2 then Value(parts[2]) else 0))
  }

  predicate Number(part: string) {
    part != [] && Digits(part) && Value(part) < I64_LIMIT
  }

  predicate AllNumbers(parts: seq<string>) {
    forall i :: 0 <= i < |parts| ==> Number(parts[i])
  }

  function Parse(value: string): Option<Version> {
    match SplitOnce(value, '+')
    case None => ParseCore(value, None)
    case Some((left, right)) =>
      if '+' in right || !IdentifiersValid(right) then None else ParseCore(left, Some(right))
  }

  function ParseCore(text: string, build: Option<string>): Option<Version> {
    match SplitOnce(text, '-')
    case None => WithCore(Core(text), "", build)
    case Some((left, right)) => if !IdentifiersValid(right) then None else WithCore(Core(left), right, build)
  }

  function WithCore(core: Option<(nat, nat, nat)>, prerelease: string, build: Option<string>): Option<Version> {
    match core
    case None => None
    case Some((major, minor, patch)) => Some(Version(major, minor, patch, prerelease, build))
  }

  function Wire(v: Version): string {
    Decimal(v.major) + ("." + (Decimal(v.minor) + ("." + Decimal(v.patch))))
    + (if v.prerelease == "" then "" else "-" + v.prerelease)
    + (match v.build case None => "" case Some(build) => "+" + build)
  }

  /** The numbers of the core, one part at a time. */
  method ParseNumbers(core: string) returns (r: Option<(nat, nat, nat)>)
    ensures r == Core(core)
  {
    var text := if core != [] && core[0] == 'v' then core[1..] else core;
    if text == [] || text[0] == 'V' {
      return None;
    }
    var parts := Split(text, '.');
    if |parts| > 3 {
      return None;
    }
    var numbers: seq<nat> := [0, 0, 0];
    for index := 0 to |parts|
      invariant |numbers| == 3
      invariant forall i :: 0 <= i < index ==> Number(parts[i]) && numbers[i] == Value(parts[i])
      invariant forall i :: index <= i < 3 ==> numbers[i] == 0
    {
      if parts[index] == [] || !Digits(parts[index]) {
        assert !Number(parts[index]);
        return None;
      }
      var number := Value(parts[index]);
      if number >= I64_LIMIT {
        assert !Number(parts[index]);
        return None;
      }
      numbers := numbers[index := number];
    }
    return Some((numbers[0], numbers[1], numbers[2]));
  }

  // Precedence

  datatype Ordering = Less | Equal | Greater

  function CompareNat(a: nat, b: nat): Ordering {
    if a < b then Less else if a > b then Greater else Equal
  }

  /** Strings in the order of their bytes. */
  function CompareText(a: string, b: string): Ordering {
    if a == [] && b == [] then Equal
    else if a == [] then Less
    else if b == [] then Greater
    else if a[0] != b[0] then (if a[0] < b[0] then Less else Greater)
    else CompareText(a[1..], b[1..])
  }

  function U64(s: string): Option<nat> {
    var digits := if s != [] && s[0] == '+' then s[1..] else s;
    if digits != [] && Digits(digits) && Value(digits) < U64_LIMIT then Some(Value(digits)) else None
  }

  /** Two different identifiers. */
  function CompareParts(left: string, right: string): Ordering {
    match (U64(left), U64(right))
    case (Some(l), Some(r)) => if l > r then Greater else Less
    case (Some(_), None) => Less
    case (None, Some(_)) => Greater
    case (None, None) => CompareText(left, right)
  }

  function CompareLists(left: seq<string>, right: seq<string>): Ordering {
    if left == [] && right == [] then Equal
    else if left == [] then Less
    else if right == [] then Greater
    else if left[0] == right[0] then CompareLists(left[1..], right[1..])
    else CompareParts(left[0], right[0])
  }

  function ComparePre(left: string, right: string): Ordering {
    if left == [] && right == [] then Equal
    else if left == [] then Greater
    else if right == [] then Less
    else CompareLists(Split(left, '.'), Split(right, '.'))
  }

  method ComparePrerelease(left: string, right: string) returns (r: Ordering)
    ensures r == ComparePre(left, right)
  {
    if left == [] && right == [] {
      return Equal;
    }
    if left == [] {
      return Greater;
    }
    if right == [] {
      return Less;
    }
    var ls, rs := Split(left, '.'), Split(right, '.');
    var index := 0;
    assert ls[0..] == ls && rs[0..] == rs;
    while index < |ls| || index < |rs|
      invariant index <= |ls| && index <= |rs|
      invariant CompareLists(ls, rs) == CompareLists(ls[index..], rs[index..])
      decreases |ls| + |rs| - index
    {
      if index == |ls| {
        return Less;
      }
      if index == |rs| {
        return Greater;
      }
      if ls[index] != rs[index] {
        return CompareParts(ls[index], rs[index]);
      }
      assert ls[index..][1..] == ls[index + 1..] && rs[index..][1..] == rs[index + 1..];
      index := index + 1;
    }
    return Equal;
  }

  function CompareCore(a: Version, b: Version): Ordering {
    if a.major != b.major then CompareNat(a.major, b.major)
    else if a.minor != b.minor then CompareNat(a.minor, b.minor)
    else CompareNat(a.patch, b.patch)
  }

  predicate LessThan(a: Version, b: Version) {
    CompareCore(a, b) == Less || (CompareCore(a, b) == Equal && ComparePre(a.prerelease, b.prerelease) == Less)
  }
}
