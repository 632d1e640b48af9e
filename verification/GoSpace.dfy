/** Trimming white space from bytes that may or may not be UTF-8. */
module GoSpace {
  import opened Wrappers
  import opened ByteStrings

  const COLON: byte := 58

  predicate Ascii(b: byte) {
    b < 0x80
  }

  predicate AsciiSpace(b: byte) {
    b == 9 || b == 10 || b == 11 || b == 12 || b == 13 || b == 32
  }

  // UTF-8

  predicate Tail(b: byte) {
    0x80 <= b <= 0xbf
  }

  /** The length of the well-formed UTF-8 character at the head, or 0. */
  function CharLen(s: Bytes): (n: nat)
    ensures n <= |s| && n <= 4
    ensures n >= 2 ==> forall i :: 0 <= i < n ==> !Ascii(s[i])
  {
    if s == [] then 0
    else if s[0] < 0x80 then 1
    else if 0xc2 <= s[0] <= 0xdf && |s| >= 2 && Tail(s[1]) then 2
    else if |s| >= 3 && Tail(s[2])
            && ((s[0] == 0xe0 && 0xa0 <= s[1] <= 0xbf) || (s[0] == 0xed && 0x80 <= s[1] <= 0x9f)
                || (0xe1 <= s[0] <= 0xef && s[0] != 0xed && Tail(s[1]))) then 3
    else if |s| >= 4 && Tail(s[2]) && Tail(s[3])
            && ((s[0] == 0xf0 && 0x90 <= s[1] <= 0xbf) || (s[0] == 0xf4 && 0x80 <= s[1] <= 0x8f)
                || (0xf1 <= s[0] <= 0xf3 && Tail(s[1]))) then 4
    else 0
  }

  predicate Utf8(s: Bytes) {
    s == [] || (CharLen(s) > 0 && Utf8(s[CharLen(s)..]))
  }

  /** The code point of the character at the head. */
  function CodePoint(s: Bytes): int
    requires CharLen(s) > 0
  {
    var a: int := s[0];
    if CharLen(s) == 1 then a
    else
      var b: int := s[1];
      if CharLen(s) == 2 then a % 32 * 64 + b % 64
      else
        var c: int := s[2];
        if CharLen(s) == 3 then (a % 16 * 64 + b % 64) * 64 + c % 64
        else
          var d: int := s[3];
          ((a % 8 * 64 + b % 64) * 64 + c % 64) * 64 + d % 64
  }

  /** A code point that is no surrogate. */
  predicate Scalar(c: int) {
    0 <= c < 0xd800 || 0xe000 <= c < 0x11_0000
  }

  function Encoded(c: int): Bytes
    requires Scalar(c)
  {
    if c < 0x80 then [c]
    else if c < 0x800 then [0xc0 + c / 64, 0x80 + c % 64]
    else if c < 0x1_0000 then [0xe0 + c / 64 / 64, 0x80 + c / 64 % 64, 0x80 + c % 64]
    else [0xf0 + c / 64 / 64 / 64, 0x80 + c / 64 / 64 % 64, 0x80 + c / 64 % 64, 0x80 + c % 64]
  }

  lemma {:induction false} SixBits(q: int, r: int)
    requires 0 <= r < 64
    ensures (q * 64 + r) / 64 == q && (q * 64 + r) % 64 == r && (0x80 + r) % 64 == r
  {
  }

  lemma {:induction false} LeadBits(h: int)
    ensures 0 <= h < 32 ==> (0xc0 + h) % 32 == h
    ensures 0 <= h < 16 ==> (0xe0 + h) % 16 == h
    ensures 0 <= h < 8 ==> (0xf0 + h) % 8 == h
  {
  }

  /** Reading is the inverse of encoding: an encoded code point is read back, whatever follows it, ... */
  lemma {:induction false} EncodedIsRead(c: int, rest: Bytes)
    requires Scalar(c)
    ensures var s := Encoded(c) + rest; CharLen(s) == |Encoded(c)| && CodePoint(s) == c
  {
    var s := Encoded(c) + rest;
    var q := c / 64;
    SixBits(q, c % 64);
    if 0x80 <= c < 0x800 {
      LeadBits(q);
      assert s[0] == 0xc0 + q && s[1] == 0x80 + c % 64;
    } else if 0x800 <= c {
      SixBits(q / 64, q % 64);
      if c < 0x1_0000 { WideIsRead(c, s); } else { WidestIsRead(c, s); }
    }
  }

  lemma {:induction false} WideIsRead(c: int, s: Bytes)
    requires Scalar(c) && 0x800 <= c < 0x1_0000 && Encoded(c) <= s
    ensures CharLen(s) == 3 && CodePoint(s) == c
  {
    var q, h := c / 64, c / 64 / 64;
    assert s[0] == 0xe0 + h && s[1] == 0x80 + q % 64 && s[2] == 0x80 + c % 64;
    SixBits(q, c % 64);
    SixBits(h, q % 64);
    LeadBits(h);
    assert q == h * 64 + q % 64 && c == q * 64 + c % 64;
    assert CharLen(s) == 3;
  }

  lemma {:induction false} WidestIsRead(c: int, s: Bytes)
    requires 0x1_0000 <= c < 0x11_0000 && Encoded(c) <= s
    ensures CharLen(s) == 4 && CodePoint(s) == c
  {
    var q, h, g := c / 64, c / 64 / 64, c / 64 / 64 / 64;
    assert s[0] == 0xf0 + g && s[1] == 0x80 + h % 64 && s[2] == 0x80 + q % 64 && s[3] == 0x80 + c % 64;
    SixBits(q, c % 64);
    SixBits(h, q % 64);
    SixBits(g, h % 64);
    LeadBits(g);
    assert h == g * 64 + h % 64 && q == h * 64 + q % 64 && c == q * 64 + c % 64;
    assert CharLen(s) == 4;
  }

  /** ... and what is read is encoded in just the bytes that were read. */
  lemma {:induction false} ReadIsEncoded(s: Bytes)
    requires CharLen(s) > 0
    ensures Scalar(CodePoint(s)) && s[..CharLen(s)] == Encoded(CodePoint(s))
  {
    var n := CharLen(s);
    if n == 2 {
      var q: int, c: int := s[0] - 0xc0, s[1] - 0x80;
      LeadBits(q);
      SixBits(q, c);
      assert s[0] == 0xc0 + q && s[1] == 0x80 + c;
      assert CodePoint(s) == q * 64 + c;
    } else if n == 3 {
      WideIsEncoded(s);
    } else if n == 4 {
      WidestIsEncoded(s);
    }
  }

  lemma {:induction false} WideIsEncoded(s: Bytes)
    requires CharLen(s) == 3
    ensures Scalar(CodePoint(s)) && s[..3] == Encoded(CodePoint(s))
  {
    var h: int, q: int, c: int := s[0] - 0xe0, s[1] - 0x80, s[2] - 0x80;
    LeadBits(h);
    SixBits(h, q);
    SixBits(h * 64 + q, c);
    assert s[0] == 0xe0 + h && s[1] == 0x80 + q && s[2] == 0x80 + c;
    assert CodePoint(s) == (h * 64 + q) * 64 + c;
  }

  lemma {:induction false} WidestIsEncoded(s: Bytes)
    requires CharLen(s) == 4
    ensures Scalar(CodePoint(s)) && s[..4] == Encoded(CodePoint(s))
  {
    var g: int, h: int, q: int, c: int := s[0] - 0xf0, s[1] - 0x80, s[2] - 0x80, s[3] - 0x80;
    LeadBits(g);
    SixBits(g, h);
    SixBits(g * 64 + h, q);
    SixBits((g * 64 + h) * 64 + q, c);
    assert s[0] == 0xf0 + g && s[1] == 0x80 + h && s[2] == 0x80 + q && s[3] == 0x80 + c;
    assert CodePoint(s) == ((g * 64 + h) * 64 + q) * 64 + c;
  }

  /** The Unicode property White_Space. */
  predicate Whitespace(c: int) {
    || 9 <= c <= 13 || c == 0x20 || c == 0x85 || c == 0xa0 || c == 0x1680 || 0x2000 <= c <= 0x200a
    || c == 0x2028 || c == 0x2029 || c == 0x202f || c == 0x205f || c == 0x3000
  }

  function Utf8Width(first: byte): Option<nat> {
    if 0xc2 <= first <= 0xdf then Some(2)
    else if 0xe0 <= first <= 0xef then Some(3)
    else if 0xf0 <= first <= 0xf4 then Some(4)
    else None
  }

  // One space at either end

  function LeadingSpaceLen(s: Bytes): (r: Option<nat>)
    ensures r.Some? ==> 1 <= r.value <= |s| && COLON !in s[..r.value]
  {
    if s == [] then None
    else if Ascii(s[0]) then if AsciiSpace(s[0]) then Some(1) else None
    else
      match Utf8Width(s[0])
      case None => None
      case Some(width) =>
        if width > |s| || !Utf8(s[..width]) then None
        else
          var n := CharLen(s[..width]);
          assert forall i :: 0 <= i < n ==> s[i] == s[..width][i];
          if Whitespace(CodePoint(s[..width])) then Some(n) else None
  }

  /** The first start from `start` on at which the rest is UTF-8. */
  function FirstUtf8(s: Bytes, start: nat): (r: Option<nat>)
    requires start <= |s|
    ensures r.Some? ==> start <= r.value < |s| && Utf8(s[r.value..])
    decreases |s| - start
  {
    if start == |s| then None else if Utf8(s[start..]) then Some(start) else FirstUtf8(s, start + 1)
  }

  lemma {:induction false} OneWideChar(text: Bytes, last: byte)
    requires text != [] && CharLen(text) == |text| && text[|text| - 1] == last && !Ascii(last)
    ensures COLON !in text
  {
  }

  function TrailingSpaceLen(s: Bytes): (r: Option<nat>)
    ensures r.Some? ==> 1 <= r.value <= |s| && COLON !in s[|s| - r.value..]
  {
    if s == [] then None
    else if Ascii(s[|s| - 1]) then if AsciiSpace(s[|s| - 1]) then Some(1) else None
    else
      match FirstUtf8(s, if |s| < 4 then 0 else |s| - 4)
      case None => None
      case Some(start) =>
        var n := CharLen(s[start..]);
        if Whitespace(CodePoint(s[start..])) && n == |s| - start then
          OneWideChar(s[start..], s[|s| - 1]);
          Some(n)
        else None
  }

  // Trimming

  function TrimLeft(s: Bytes): Bytes {
    match LeadingSpaceLen(s)
    case None => s
    case Some(n) => TrimLeft(s[n..])
  }

  function TrimRight(s: Bytes): Bytes {
    match TrailingSpaceLen(s)
    case None => s
    case Some(n) => TrimRight(s[..|s| - n])
  }

  function Trim(s: Bytes): Bytes {
    TrimRight(TrimLeft(s))
  }

  method TrimGoSpace(value: Bytes) returns (r: Bytes)
    ensures r == Trim(value)
  {
    hide LeadingSpaceLen, TrailingSpaceLen;
    r := value;
    var n := LeadingSpaceLen(r);
    while n.Some?
      invariant n == LeadingSpaceLen(r) && TrimLeft(r) == TrimLeft(value)
      decreases |r|
    {
      r := r[n.value..];
      n := LeadingSpaceLen(r);
    }
    n := TrailingSpaceLen(r);
    while n.Some?
      invariant n == TrailingSpaceLen(r) && TrimRight(r) == Trim(value)
      decreases |r|
    {
      r := r[..|r| - n.value];
      n := TrailingSpaceLen(r);
    }
  }

  // What trimming leaves

  /** The head is one character, of `n` bytes, and white space. */
  predicate SpaceAtHead(s: Bytes, n: nat) {
    n > 0 && CharLen(s) == n && Whitespace(CodePoint(s))
  }

  /** White space and nothing else. */
  predicate Spaces(s: Bytes) {
    s == [] || (SpaceAtHead(s, CharLen(s)) && Spaces(s[CharLen(s)..]))
  }

  /** A character is decided by its own bytes. */
  lemma {:induction false} CharByItself(p: Bytes, s: Bytes)
    requires p <= s
    ensures 0 < CharLen(p) ==> CharLen(s) == CharLen(p) && CodePoint(s) == CodePoint(p)
    ensures 0 < CharLen(s) <= |p| ==> CharLen(p) == CharLen(s)
  {
  }

  lemma {:induction false} LeadingSpaceIff(s: Bytes, n: nat)
    ensures LeadingSpaceLen(s) == Some(n) <==> SpaceAtHead(s, n)
  {
    if s != [] && !Ascii(s[0]) {
      WidthOfHead(s);
      if Utf8Width(s[0]).Some? && Utf8Width(s[0]).value <= |s| {
        var c := s[..Utf8Width(s[0]).value];
        CharByItself(c, s);
        WidthOfHead(c);
        hide CharLen, CodePoint, Whitespace;
        assert CharLen(c) > 0 ==> c[CharLen(c)..] == [];
        assert Utf8(c) <==> CharLen(c) > 0;
      }
    }
  }

  lemma {:induction false} WidthOfHead(s: Bytes)
    requires s != [] && !Ascii(s[0])
    ensures CharLen(s) > 0 ==> Utf8Width(s[0]) == Some(CharLen(s))
  {
  }

  lemma {:induction false} TrailingSpaceIs(s: Bytes, n: nat)
    requires TrailingSpaceLen(s) == Some(n)
    ensures n <= |s| && SpaceAtHead(s[|s| - n..], n)
  {
  }

  lemma {:induction false} SpacesAfter(space: Bytes, rest: Bytes)
    requires SpaceAtHead(space, |space|) && Spaces(rest)
    ensures Spaces(space + rest)
  {
    CharByItself(space, space + rest);
    assert (space + rest)[|space|..] == rest;
  }

  lemma {:induction false} NoSpaces(s: Bytes)
    requires s == []
    ensures Spaces(s)
  {
  }

  lemma {:induction false} TrimLeftIs(s: Bytes) returns (a: nat)
    ensures a <= |s| && TrimLeft(s) == s[a..] && Spaces(s[..a]) && LeadingSpaceLen(s[a..]).None?
  {
    hide LeadingSpaceLen, CharLen, CodePoint, Whitespace, Spaces;
    a := 0;
    assert s[0..] == s;
    NoSpaces(s[..0]);
    if LeadingSpaceLen(s).Some? {
      var k := LeadingSpaceLen(s).value;
      LeadingSpaceIff(s, k);
      CharByItself(s[..k], s);
      var m := TrimLeftIs(s[k..]);
      a := k + m;
      SpacesAfter(s[..k], s[k..][..m]);
      assert s[..k] + s[k..][..m] == s[..a] && s[k..][m..] == s[a..];
    }
  }

  lemma {:induction false} TrimRightIs(s: Bytes) returns (b: nat)
    ensures b <= |s| && TrimRight(s) == s[..b] && Spaces(s[b..]) && TrailingSpaceLen(s[..b]).None?
  {
    hide TrailingSpaceLen, CharLen, CodePoint, Whitespace, Spaces;
    b := |s|;
    assert s[..b] == s;
    NoSpaces(s[b..]);
    if TrailingSpaceLen(s).Some? {
      var n := TrailingSpaceLen(s).value;
      TrailingSpaceIs(s, n);
      var k := |s| - n;
      b := TrimRightIs(s[..k]);
      assert s[..k][..b] == s[..b];
      SpacesEnd(s[..k][b..], s[k..]);
      assert s[..k][b..] + s[k..] == s[b..];
    }
  }

  lemma {:induction false} SpacesEnd(spaces: Bytes, last: Bytes)
    requires Spaces(spaces) && SpaceAtHead(last, |last|)
    ensures Spaces(spaces + last)
  {
    hide CharLen;
    if spaces == [] {
      assert spaces + last == last && last[|last|..] == [];
    } else {
      var n := CharLen(spaces);
      CharByItself(spaces, spaces + last);
      SpacesEnd(spaces[n..], last);
      assert (spaces + last)[n..] == spaces[n..] + last;
    }
  }

  /**
    * Trimming takes away white space at both ends and nothing else, and what is left starts with no space and ends
    * with no ASCII space. (Whether it ends with a wider space is told below.)
    */
  lemma {:induction false} TrimIs(s: Bytes) returns (a: nat, b: nat)
    ensures a <= b <= |s| && Trim(s) == s[a..b] && Spaces(s[..a]) && Spaces(s[b..])
    ensures !SpaceAtHead(s[a..b], CharLen(s[a..b]))
    ensures TrailingSpaceLen(s[a..b]).None? && (a < b ==> !AsciiSpace(s[b - 1]))
  {
    hide LeadingSpaceLen, CharLen, CodePoint;
    a := TrimLeftIs(s);
    var t := s[a..];
    var c := TrimRightIs(t);
    b := a + c;
    assert t[..c] == s[a..b] && t[c..] == s[b..];
    CharByItself(s[a..b], t);
    LeadingSpaceIff(t, CharLen(t));
  }

  /** Trimming on the right takes away no colon. */
  lemma {:induction false} TrimRightCuts(s: Bytes) returns (n: nat)
    ensures n <= |s| && TrimRight(s) == s[..n] && COLON !in s[n..]
  {
    hide TrailingSpaceLen;
    n := |s|;
    assert s[..n] == s && s[n..] == [];
    if TrailingSpaceLen(s).Some? {
      var k := |s| - TrailingSpaceLen(s).value;
      n := TrimRightCuts(s[..k]);
      assert s[..k][..n] == s[..n] && s[n..] == s[..k][n..] + s[k..];
    }
  }

  /** A colon ends the search for leading space, so a prefix that holds one decides it. */
  lemma {:induction false} LeadingDecidedByColon(p: Bytes, s: Bytes)
    requires p <= s && COLON in p
    ensures LeadingSpaceLen(p) == LeadingSpaceLen(s)
  {
    if !Ascii(s[0]) && Utf8Width(s[0]).Some? {
      var width := Utf8Width(s[0]).value;
      if width <= |p| {
        assert p[..width] == s[..width];
      } else if width <= |s| {
        var i :| 0 <= i < |p| && p[i] == COLON;
        WholeChar(s[..width], i);
      }
    }
  }

  /** A lead byte with a character's worth of bytes holding a colon is no UTF-8. */
  lemma {:induction false} WholeChar(s: Bytes, i: nat)
    requires 0 < i < |s| && s[i] == COLON && !Ascii(s[0]) && Utf8Width(s[0]) == Some(|s|)
    ensures !Utf8(s)
  {
  }

  lemma {:induction false} TrimLeftDecidedByColon(p: Bytes, s: Bytes) returns (n: nat)
    requires p <= s && COLON in p
    ensures n < |p| && TrimLeft(p) == p[n..] && TrimLeft(s) == s[n..] && COLON !in p[..n]
  {
    hide LeadingSpaceLen;
    LeadingDecidedByColon(p, s);
    n := 0;
    if LeadingSpaceLen(p).Some? {
      var k := LeadingSpaceLen(p).value;
      assert p == p[..k] + p[k..] && COLON in p[k..];
      var m := TrimLeftDecidedByColon(p[k..], s[k..]);
      n := k + m;
      assert p[k..][m..] == p[n..] && s[k..][m..] == s[n..] && p[..n] == p[..k] + p[k..][..m];
    }
  }

  /**
    * A finding about the search from the right. It takes the first start, among the last four bytes, from which
    * the rest is UTF-8, and gives up if that is not one space. So a three-byte space at the end, such as the
    * ideographic space, is taken away exactly if it is all there is or no ASCII character is before it.
    */
  lemma {:induction false} WideSpaceTrimmedIff(front: Bytes, space: Bytes)
    requires |space| == 3 && CharLen(space) == 3 && Whitespace(CodePoint(space))
    ensures var found := front == [] || !Ascii(front[|front| - 1]);
            && TrailingSpaceLen(front + space) == (if found then Some(3) else None)
            && TrimRight(front + space) == if found then TrimRight(front) else front + space
  {
    var s := front + space;
    assert Utf8(space) by { assert space[3..] == []; }
    assert !Ascii(space[2]);
    assert s[|front|..] == space;
    if front != [] {
      var lower := |s| - 4;
      assert s[lower..] == [front[|front| - 1]] + space;
      FourBytes(front[|front| - 1], space);
      assert s[lower + 1..] == space && !Ascii(s[|s| - 1]);
      assert FirstUtf8(s, lower) == Some(if Ascii(front[|front| - 1]) then lower else lower + 1);
    } else {
      assert s == space && FirstUtf8(s, 0) == Some(0);
    }
    assert s[..|front|] == front;
  }

  /** For instance behind a single letter, here the letter a and the ideographic space. */
  lemma {:induction false} IdeographicSpaceKept()
    ensures var line: Bytes := [97, 0xe3, 0x80, 0x80]; Whitespace(CodePoint(line[1..])) && Trim(line) == line
  {
    var front: Bytes, space: Bytes := [97], [0xe3, 0x80, 0x80];
    assert CharLen(space) == 3 && CodePoint(space) == 0x3000;
    assert front + space == [97, 0xe3, 0x80, 0x80] && [97, 0xe3, 0x80, 0x80][1..] == space;
    WideSpaceTrimmedIff(front, space);
  }

  lemma {:induction false} FourBytes(b: byte, space: Bytes)
    requires |space| == 3 && CharLen(space) == 3
    ensures Utf8([b] + space) <==> Ascii(b)
    ensures Ascii(b) ==> CharLen([b] + space) == 1
  {
    var s := [b] + space;
    assert s[1..] == space && space[3..] == [];
    assert Utf8(space);
    if !Ascii(b) {
      assert !Tail(s[1]);
    }
  }

  /** The same for a two-byte space: it is also kept behind a two-byte character. */
  lemma {:induction false} NarrowSpaceTrimmedIff(front: Bytes, space: Bytes)
    requires |space| == 2 && CharLen(space) == 2 && Whitespace(CodePoint(space))
    ensures var found :=
              front == [] || (!Ascii(front[|front| - 1]) && (|front| == 1 || CharLen(front[|front| - 2..]) != 2));
            && TrailingSpaceLen(front + space) == (if found then Some(2) else None)
            && TrimRight(front + space) == if found then TrimRight(front) else front + space
  {
    var s := front + space;
    assert Utf8(space) by { assert space[2..] == []; }
    assert !Ascii(space[1]) && !Ascii(s[|s| - 1]);
    assert s[|front|..] == space;
    if front == [] {
      assert s == space && FirstUtf8(s, 0) == Some(0);
    } else {
      assert s[|s| - 3..] == [front[|front| - 1]] + space;
      ThreeBytes(front[|front| - 1], space);
      assert FirstUtf8(s, |s| - 3) == Some(if Ascii(front[|front| - 1]) then |s| - 3 else |s| - 2);
      if |front| >= 2 {
        var pair := front[|front| - 2..];
        assert s[|s| - 4..] == pair + space;
        PairThenSpace(pair, space);
      }
    }
    assert s[..|front|] == front;
  }

  lemma {:induction false} ThreeBytes(b: byte, space: Bytes)
    requires |space| == 2 && CharLen(space) == 2
    ensures Utf8([b] + space) <==> Ascii(b)
    ensures Ascii(b) ==> CharLen([b] + space) == 1
  {
    var s := [b] + space;
    assert s[1..] == space && space[2..] == [];
    assert Utf8(space);
    if !Ascii(b) {
      assert !Tail(s[1]);
    }
  }

  lemma {:induction false} PairThenSpace(pair: Bytes, space: Bytes)
    requires |pair| == 2 && |space| == 2 && CharLen(space) == 2
    ensures Utf8(pair + space) <==> CharLen(pair) == 2 || (Ascii(pair[0]) && Ascii(pair[1]))
    ensures Utf8(pair + space) ==> CharLen(pair + space) <= 2
  {
    var s := pair + space;
    assert !Tail(s[2]);
    assert s[2..] == space && s[1..] == [pair[1]] + space;
    ThreeBytes(pair[1], space);
    assert Utf8(space) by { assert space[2..] == []; }
    assert CharLen(s) == CharLen(pair);
  }
}
