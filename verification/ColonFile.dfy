/** Searching /etc/passwd and /etc/group while reading no further into a line than its last wanted colon. */
module ColonFile {
  import opened Wrappers
  import opened Sequences
  import opened ByteStrings
  import opened GoSpace

  const HASH: byte := 35
  const COMMA: byte := 44
  const PLUS: byte := 43
  const MINUS: byte := 45
  const ZERO: byte := 48

  // Colons

  function Colons(s: Bytes): nat {
    if s == [] then 0 else (if s[0] == COLON then 1 else 0) + Colons(s[1..])
  }

  /** A line up to and with its `k`-th colon; the whole line if it has fewer. */
  function Head(s: Bytes, k: nat): Bytes {
    if s == [] || k == 0 then [] else [s[0]] + Head(s[1..], if s[0] == COLON then k - 1 else k)
  }

  lemma {:induction false} ColonsAppend(a: Bytes, b: Bytes)
    ensures Colons(a + b) == Colons(a) + Colons(b)
  {
    if a == [] {
      assert a + b == b;
    } else {
      ColonsAppend(a[1..], b);
      assert (a + b)[1..] == a[1..] + b;
    }
  }

  lemma {:induction false} NoColons(s: Bytes)
    ensures Colons(s) == 0 <==> COLON !in s
  {
    if s != [] {
      NoColons(s[1..]);
      assert s == [s[0]] + s[1..];
    }
  }

  lemma {:induction false} HeadAppend(a: Bytes, b: Bytes, k: nat)
    requires Colons(a) < k
    ensures Head(a + b, k) == a + Head(b, k - Colons(a))
  {
    if a == [] {
      assert a + b == b;
    } else {
      var left := if a[0] == COLON then k - 1 else k;
      HeadAppend(a[1..], b, left);
      assert (a + b)[1..] == a[1..] + b && (a + b)[0] == a[0];
      var rest := Head(b, k - Colons(a));
      assert Head(a + b, k) == [a[0]] + (a[1..] + rest);
      assert [a[0]] + (a[1..] + rest) == a + rest;
    }
  }

  lemma {:induction false} ShortHead(s: Bytes, k: nat)
    requires Colons(s) < k
    ensures Head(s, k) == s
  {
    HeadAppend(s, [], k);
    assert s + [] == s;
  }

  /** The head of a long enough line ends with its last wanted colon, whatever follows. */
  lemma {:induction false} LongHead(s: Bytes, k: nat)
    requires 0 < k <= Colons(s)
    ensures var h := Head(s, k); h <= s && h != [] && h[|h| - 1] == COLON && Colons(h) == k
  {
    var left := if s[0] == COLON then k - 1 else k;
    if left > 0 {
      LongHead(s[1..], left);
      assert Head(s, k)[1..] == Head(s[1..], left);
    } else {
      assert Head(s, k) == [s[0]];
    }
  }

  lemma {:induction false} HeadOfPrefix(a: Bytes, b: Bytes, k: nat)
    requires k <= Colons(a)
    ensures Head(a + b, k) == Head(a, k)
  {
    if a != [] && k > 0 {
      HeadOfPrefix(a[1..], b, if a[0] == COLON then k - 1 else k);
      assert (a + b)[1..] == a[1..] + b;
    }
  }

  // What is searched for

  /** The parser's answer for a line, unless it is blank or a comment. */
  function Candidate<T>(line: Bytes, parse: Bytes -> Option<T>): Option<T> {
    var t := Trim(line);
    if t == [] || t[0] == HASH then None else parse(t)
  }

  function FirstOf<T>(lines: seq<Bytes>, parse: Bytes -> Option<T>): Option<T> {
    if lines == [] then None
    else if Candidate(lines[0], parse).Some? then Candidate(lines[0], parse)
    else FirstOf(lines[1..], parse)
  }

  /** A line that holds white space only, or a comment. */
  predicate BlankOrComment(line: Bytes) {
    Trim(line) == [] || HASH == Trim(line)[0]
  }

  predicate Parses<T>(line: Bytes, parse: Bytes -> Option<T>) {
    !BlankOrComment(line) && parse(Trim(line)).Some?
  }

  /**
    * The search finds the first line that is neither blank nor a comment and that parses once trimmed, and nothing
    * exactly if there is none.
    */
  lemma {:induction false} FirstOfIs<T>(lines: seq<Bytes>, parse: Bytes -> Option<T>) returns (i: nat)
    ensures i <= |lines| && forall j :: 0 <= j < i ==> !Parses(lines[j], parse)
    ensures i < |lines| ==> Parses(lines[i], parse)
    ensures FirstOf(lines, parse) == if i == |lines| then None else parse(Trim(lines[i]))
  {
    hide Trim;
    i := 0;
    if lines != [] && !Parses(lines[0], parse) {
      i := FirstOfIs(lines[1..], parse);
      assert forall j :: 0 <= j < i ==> lines[1..][j] == lines[j + 1];
      i := i + 1;
      assert forall j :: 1 <= j < i ==> lines[j] == lines[1..][j - 1];
    }
  }

  function Heads(lines: seq<Bytes>, k: nat): seq<Bytes> {
    seq(|lines|, i requires 0 <= i < |lines| => Head(lines[i], k))
  }

  /** What a line's rest, behind `k` colons, does not change. */
  ghost predicate DecidedByHead<T>(parse: Bytes -> Option<T>, k: nat) {
    forall line {:trigger parse(line)} :: Colons(line) >= k ==> parse(line) == parse(Head(line, k))
  }

  // The reader

  /** From the buffer into the prefix, up to the end of the line or the last wanted colon. */
  method TakePrefix(available: Bytes, before: Bytes, count: nat, k: nat)
    returns (prefix: Bytes, colons: nat, consumed: nat, newline: bool)
    requires available != [] && NEWLINE !in before && count == Colons(before) < k
    ensures 0 < consumed <= |available| && colons == Colons(prefix) <= k
    ensures prefix == before + available[..if newline then consumed - 1 else consumed] && NEWLINE !in prefix
    ensures newline ==> available[consumed - 1] == NEWLINE && colons < k
    ensures !newline && colons < k ==> consumed == |available|
    ensures colons == k ==> prefix[|prefix| - 1] == COLON && Colons(prefix[..|prefix| - 1]) < k
  {
    prefix, colons, consumed, newline := before, count, 0, false;
    while consumed < |available|
      invariant 0 <= consumed <= |available| && colons == Colons(prefix) < k && !newline
      invariant prefix == before + available[..consumed] && NEWLINE !in prefix
      decreases |available| - consumed
    {
      var b := available[consumed];
      consumed := consumed + 1;
      if b == NEWLINE {
        newline := true;
        break;
      }
      ColonsAppend(prefix, [b]);
      assert available[..consumed] == available[..consumed - 1] + [b];
      prefix := prefix + [b];
      colons := colons + if b == COLON then 1 else 0;
      if colons >= k {
        assert prefix[..|prefix| - 1] == before + available[..consumed - 1];
        break;
      }
    }
  }

  datatype ReadFailure = ReadFailure

  /** Reads on to the next line; `failed` if the reader, being `broken`, fails before it gets there. */
  method DrainLine(chunks: seq<Bytes>, broken: bool) returns (left: seq<Bytes>, failed: bool)
    requires Buffered(chunks)
    ensures Buffered(left) && |Concat(left)| <= |Concat(chunks)|
    ensures Concat(left) == AfterLine(Concat(chunks))
    ensures failed <==> broken && LineLen(Concat(chunks)) == |Concat(chunks)|
  {
    hide LineLen, AfterLine, FillBuf, Skip, Buffered, Concat;
    left, failed := chunks, false;
    ghost var read: Bytes := [];
    assert Concat(chunks) == read + Concat(left);
    while true
      invariant Buffered(left) && NEWLINE !in read && Concat(chunks) == read + Concat(left)
      decreases |Concat(left)|
    {
      var available := FillBuf(left);
      ghost var all := Concat(left);
      if available == [] {
        assert Concat(chunks) == read;
        LineLenIs(read, |read|);
        NothingAfter(read);
        return left, broken;
      }
      var index := LineLen(available);
      LineEnds(available);
      ghost var rest := all[|available|..];
      assert all == available + rest;
      assert Concat(chunks) == read + (available + rest);
      if index < |available| {
        AfterNewline(read, available, rest, index);
        left := Skip(left, index + 1);
        assert Concat(left) == available[index + 1..] + rest;
        return left, false;
      }
      left := Skip(left, |available|);
      assert read + (available + rest) == (read + available) + rest;
      read := read + available;
    }
  }

  lemma {:induction false} AfterNewline(read: Bytes, available: Bytes, rest: Bytes, index: nat)
    requires NEWLINE !in read && index < |available| && available[index] == NEWLINE && NEWLINE !in available[..index]
    ensures var text := read + (available + rest);
            LineLen(text) < |text| && AfterLine(text) == available[index + 1..] + rest
  {
    hide LineLen;
    var text, line := read + (available + rest), read + available[..index];
    assert text == line + ([NEWLINE] + (available[index + 1..] + rest));
    assert text[..|line|] == line && text[|line|] == NEWLINE;
    LineLenIs(text, |line|);
  }

  /**
    * The lines of a text whose heads a reader gets to see: all of them, unless it is `broken` at the end of the text
    * and has not yet read `k` colons of a line cut off there.
    */
  function Seen(text: Bytes, k: nat, broken: bool): seq<Bytes>
    decreases |text|
  {
    if text == [] || (LineLen(text) == |text| && broken && Colons(text) < k) then []
    else [text[..LineLen(text)]] + Seen(AfterLine(text), k, broken)
  }

  /** Whether the text ends in a line that a broken reader cannot make sense of. */
  predicate CutOff(text: Bytes, k: nat, broken: bool) {
    broken && Lines(text) != [] && text[|text| - 1] != NEWLINE && Colons(Lines(text)[|Lines(text)| - 1]) < k
  }

  /** A reader that does not fail sees all lines; a broken one sees all but a last line that is cut off too early. */
  lemma {:induction false} SeenIs(text: Bytes, k: nat, broken: bool)
    requires k > 0
    ensures Seen(text, k, broken) == if CutOff(text, k, broken) then Lines(text)[..|Lines(text)| - 1] else Lines(text)
    decreases |text|
  {
    hide LineLen, Colons;
    if text != [] {
      LineEnds(text);
      var line, rest := text[..LineLen(text)], AfterLine(text);
      assert Lines(text) == [line] + Lines(rest);
      if LineLen(text) == |text| {
        assert line == text && Lines(rest) == [] && Seen(rest, k, broken) == [];
        assert text[|text| - 1] in text;
      } else {
        SeenIs(rest, k, broken);
        if rest != [] {
          assert text[|text| - 1] == rest[|rest| - 1];
          assert Lines(rest) != [] && Lines(text)[|Lines(text)| - 1] == Lines(rest)[|Lines(rest)| - 1];
          assert ([line] + Lines(rest))[..|Lines(rest)|] == [line] + Lines(rest)[..|Lines(rest)| - 1];
        }
      }
    }
  }

  /** The first candidate among the heads that a reader gets to see. */
  function Search<T>(text: Bytes, k: nat, broken: bool, parse: Bytes -> Option<T>): Option<T> {
    FirstOf(Heads(Seen(text, k, broken), k), parse)
  }

  /** A read error is reported only if nothing was found before it. */
  function Reported<T>(found: Option<T>, broken: bool): Result<Option<T>, ReadFailure> {
    if found.None? && broken then Err(ReadFailure) else Ok(found)
  }

  method ReadColonFile<T>(chunks: seq<Bytes>, broken: bool, k: nat, parse: Bytes -> Option<T>)
    returns (r: Result<Option<T>, ReadFailure>)
    requires Buffered(chunks) && k > 0
    ensures r == Reported(FirstOf(Heads(Seen(Concat(chunks), k, broken), k), parse), broken)
  {
    hide Candidate, AfterLine, Head, Search, Concat, LineLen, Colons, Buffered, Skip, FillBuf, Seen, FirstOf, Heads;
    var left := chunks;
    var prefix: Bytes, colons := [], 0;
    SearchIs(Concat(chunks), k, broken, parse);
    assert Colons([]) == 0 by { NoColons([]); }
    assert [] + Concat(left) == Concat(left);
    while true
      invariant Buffered(left) && NEWLINE !in prefix && colons == Colons(prefix) < k
      invariant Search(Concat(chunks), k, broken, parse) == Search(prefix + Concat(left), k, broken, parse)
      decreases |Concat(left)|
    {
      var available := FillBuf(left);
      ghost var before, all := prefix, Concat(left);
      if available == [] {
        assert before + all == prefix;
        LastLine(prefix, k, broken, parse);
        if broken {
          return Err(ReadFailure);
        }
        if prefix == [] {
          return Ok(None);
        }
        var found := CandidateOf(prefix, parse);
        return Ok(found);
      }
      var consumed, newline;
      prefix, colons, consumed, newline := TakePrefix(available, prefix, colons, k);
      assert all[..consumed] == available[..consumed];
      assert newline ==> all[..consumed - 1] == available[..consumed - 1];
      left := Skip(left, consumed);
      if colons >= k || newline {
        if newline { AtNewline(before, all, prefix, consumed, k); } else { AtColon(before, all, prefix, consumed, k); }
        NextLine(before + all, prefix, k, broken, parse);
        var found := CandidateOf(prefix, parse);
        if found.Some? {
          return Ok(found);
        }
        if !newline {
          var failed;
          left, failed := DrainLine(left, broken);
          if failed {
            NothingAfter(all[consumed..]);
            NothingSeen(k, broken, parse);
            return Err(ReadFailure);
          }
        }
        assert Concat(left) == AfterLine(before + all);
        prefix, colons := [], 0;
        assert [] + Concat(left) == Concat(left);
      } else {
        assert prefix + Concat(left) == before + all;
      }
    }
  }

  lemma {:induction false} SearchIs<T>(text: Bytes, k: nat, broken: bool, parse: Bytes -> Option<T>)
    ensures Search(text, k, broken, parse) == FirstOf(Heads(Seen(text, k, broken), k), parse)
  {
  }

  lemma {:induction false} NothingSeen<T>(k: nat, broken: bool, parse: Bytes -> Option<T>)
    ensures Search([], k, broken, parse) == None
  {
  }

  lemma {:induction false} NothingAfter(text: Bytes)
    requires LineLen(text) == |text|
    ensures AfterLine(text) == []
  {
  }

  /** Trimming a line and asking the parser, as the reader does at both of its exits. */
  method CandidateOf<T>(line: Bytes, parse: Bytes -> Option<T>) returns (r: Option<T>)
    ensures r == Candidate(line, parse)
  {
    var t := TrimGoSpace(line);
    if t == [] || t[0] == HASH {
      return None;
    }
    return parse(t);
  }

  lemma {:induction false} FirstOfOne<T>(line: Bytes, parse: Bytes -> Option<T>)
    ensures FirstOf([line], parse) == Candidate(line, parse)
  {
    hide Candidate;
    assert [line][1..] == [] && FirstOf([], parse) == None;
  }

  lemma {:induction false} LastLine<T>(prefix: Bytes, k: nat, broken: bool, parse: Bytes -> Option<T>)
    requires NEWLINE !in prefix && Colons(prefix) < k
    ensures Search(prefix, k, broken, parse) == if prefix == [] || broken then None else Candidate(prefix, parse)
  {
    hide Candidate, LineLen;
    if prefix != [] {
      LineLenIs(prefix, |prefix|);
      ShortHead(prefix, k);
      assert prefix[..|prefix|] == prefix;
      if !broken {
        assert Seen([], k, broken) == [] && Seen(prefix, k, broken) == [prefix] && Heads([prefix], k) == [prefix];
        FirstOfOne(prefix, parse);
      }
    }
  }

  /** What was read when the reader stops at a newline is the text's first line. */
  lemma {:induction false} AtNewline(before: Bytes, all: Bytes, prefix: Bytes, consumed: nat, k: nat)
    requires NEWLINE !in prefix && 0 < consumed <= |all| && Colons(prefix) < k
    requires prefix == before + all[..consumed - 1] && all[consumed - 1] == NEWLINE
    ensures var text := before + all;
            && text != [] && LineLen(text) <= |text| && Head(text[..LineLen(text)], k) == prefix
            && LineLen(text) < |text| && AfterLine(text) == all[consumed..]
  {
    hide LineLen, Head, Colons;
    var text, rest := before + all, all[consumed..];
    assert text == prefix + ([NEWLINE] + rest);
    assert text[..|prefix|] == prefix && text[|prefix|] == NEWLINE;
    LineLenIs(text, |prefix|);
    ShortHead(prefix, k);
  }

  /** What was read when the reader stops at the last wanted colon is the head of the text's first line. */
  lemma {:induction false} AtColon(before: Bytes, all: Bytes, prefix: Bytes, consumed: nat, k: nat)
    requires NEWLINE !in prefix && 0 < consumed <= |all|
    requires prefix == before + all[..consumed] && prefix[|prefix| - 1] == COLON
    requires Colons(prefix) == k && Colons(prefix[..|prefix| - 1]) < k
    ensures var text := before + all;
            && text != [] && LineLen(text) <= |text| && Head(text[..LineLen(text)], k) == prefix
            && Colons(text) >= k && AfterLine(text) == AfterLine(all[consumed..])
  {
    hide LineLen, Head, Colons;
    var text, rest := before + all, all[consumed..];
    assert text == prefix + rest;
    LineLenAppend(prefix, rest);
    assert text[..LineLen(text)] == prefix + rest[..LineLen(rest)];
    HeadOfPrefix(prefix, rest[..LineLen(rest)], k);
    WholeHead(prefix, k);
    ColonsAppend(prefix, rest);
  }

  lemma {:induction false} WholeHead(prefix: Bytes, k: nat)
    requires prefix != [] && Colons(prefix) == k && Colons(prefix[..|prefix| - 1]) < k
    ensures Head(prefix, k) == prefix
  {
    hide Head, Colons;
    var front, last := prefix[..|prefix| - 1], prefix[|prefix| - 1..];
    assert prefix == front + last;
    HeadAppend(front, last, k);
    OneByte(last, k - Colons(front));
  }

  lemma {:induction false} OneByte(s: Bytes, k: nat)
    requires |s| == 1 && k > 0
    ensures Head(s, k) == s
  {
  }

  lemma {:induction false} NextLine<T>(text: Bytes, head: Bytes, k: nat, broken: bool, parse: Bytes -> Option<T>)
    requires text != [] && LineLen(text) <= |text| && head == Head(text[..LineLen(text)], k)
    requires LineLen(text) < |text| || Colons(text) >= k
    ensures Search(text, k, broken, parse)
            == if Candidate(head, parse).Some? then Candidate(head, parse)
               else Search(AfterLine(text), k, broken, parse)
  {
    hide Candidate, Head, AfterLine;
    assert Heads(Seen(text, k, broken), k)[1..] == Heads(Seen(AfterLine(text), k, broken), k);
  }

  // Reading only heads finds what reading whole lines finds

  lemma {:induction false} HeadDecides<T>(line: Bytes, k: nat, parse: Bytes -> Option<T>)
    requires k > 0 && DecidedByHead(parse, k)
    ensures Candidate(Head(line, k), parse) == Candidate(line, parse)
  {
    if Colons(line) < k {
      ShortHead(line, k);
    } else {
      TrimmedHead(line, k);
      hide Trim, Head;
      var t, h := Trim(line), Trim(Head(line, k));
      assert parse(t) == parse(Head(t, k));
    }
  }

  /** Trimming the head of a line gives the head of the trimmed line. */
  lemma {:induction false} TrimmedHead(line: Bytes, k: nat)
    requires 0 < k <= Colons(line)
    ensures var t := Trim(line);
            && Colons(t) >= k && Trim(Head(line, k)) == Head(t, k) && t != [] && Head(t, k) != [] &&
                Head(t, k)[0] == t[0]
  {
    hide TrimLeft, TrimRight, Head;
    var h := Head(line, k);
    LongHead(line, k);
    var n := TrimLeftDecidedByColon(h, line);
    var l := line[n..];
    TrimmedLeft(line, n, k);
    var m := TrimRightCuts(l);
    assert l == l[..m] + l[m..];
    NoColons(l[m..]);
    ColonsAppend(l[..m], l[m..]);
    HeadOfPrefix(l[..m], l[m..], k);
    LongHead(l[..m], k);
    EndsWithColon(h[n..]);
  }

  lemma {:induction false} TrimmedLeft(line: Bytes, n: nat, k: nat)
    requires 0 < k <= Colons(line) && n <= |Head(line, k)| <= |line| && Head(line, k) <= line &&
        COLON !in Head(line, k)[..n]
    ensures Head(line[n..], k) == Head(line, k)[n..] && Colons(line[n..]) >= k
  {
    hide Head;
    assert line[..n] == Head(line, k)[..n];
    assert line == line[..n] + line[n..];
    NoColons(line[..n]);
    ColonsAppend(line[..n], line[n..]);
    HeadAppend(line[..n], line[n..], k);
    assert (line[..n] + Head(line[n..], k))[n..] == Head(line[n..], k);
  }

  lemma {:induction false} EndsWithColon(s: Bytes)
    requires s != [] && s[|s| - 1] == COLON
    ensures TrimRight(s) == s
  {
  }

  /** For every text, the search over heads answers what the search over whole lines answers. */
  lemma {:induction false} HeadsSuffice<T>(lines: seq<Bytes>, k: nat, parse: Bytes -> Option<T>)
    requires k > 0 && DecidedByHead(parse, k)
    ensures FirstOf(Heads(lines, k), parse) == FirstOf(lines, parse)
  {
    hide Candidate, Head;
    if lines != [] {
      HeadDecides(lines[0], k, parse);
      HeadsSuffice(lines[1..], k, parse);
      assert Heads(lines, k)[1..] == Heads(lines[1..], k);
    }
  }

  // Users and groups

  datatype User = User(uid: Bytes, gid: Bytes, username: Bytes, name: Bytes, home: Bytes)

  datatype Group = Group(gid: Bytes, name: Bytes)

  /** At most `n` fields between colons, the last with whatever is left. */
  function SplitN(s: Bytes, n: nat): (parts: seq<Bytes>)
    requires n > 0
    ensures 1 <= |parts| <= n
  {
    var i := IndexOf(s, COLON);
    if n == 1 || i == |s| then [s] else [s[..i]] + SplitN(s[i + 1..], n - 1)
  }

  predicate Digits(s: Bytes) {
    s != [] && forall i :: 0 <= i < |s| ==> ZERO <= s[i] <= ZERO + 9
  }

  function DigitsValue(s: Bytes): nat
    requires forall i :: 0 <= i < |s| ==> ZERO <= s[i] <= ZERO + 9
  {
    if s == [] then 0 else DigitsValue(s[..|s| - 1]) * 10 + (s[|s| - 1] - ZERO)
  }

  /** Whether the text is a signed decimal number of 64 bits. */
  predicate IsI64(s: Bytes) {
    var negative := s != [] && s[0] == MINUS;
    var digits := if s != [] && (s[0] == PLUS || s[0] == MINUS) then s[1..] else s;
    Digits(digits) && DigitsValue(digits) < 0x8000_0000_0000_0000 + if negative then 1 else 0
  }

  function Decimal(n: nat): Bytes {
    if n < 10 then [ZERO + n] else Decimal(n / 10) + [ZERO + n % 10]
  }

  lemma {:induction false} DecimalIs(n: nat)
    ensures Digits(Decimal(n)) && DigitsValue(Decimal(n)) == n
  {
    if n >= 10 {
      DecimalIs(n / 10);
      assert Decimal(n)[..|Decimal(n)| - 1] == Decimal(n / 10);
    } else {
      assert Decimal(n)[..0] == [];
    }
  }

  /** A written number is accepted, with or without a plus sign, exactly if it is one of 64 bits. */
  lemma {:induction false} WrittenNumberIff(n: nat)
    ensures IsI64(Decimal(n)) <==> n <= 0x7fff_ffff_ffff_ffff
    ensures IsI64([PLUS] + Decimal(n)) <==> n <= 0x7fff_ffff_ffff_ffff
    ensures IsI64([MINUS] + Decimal(n)) <==> n <= 0x8000_0000_0000_0000
  {
    hide DigitsValue, Decimal;
    DecimalIs(n);
    assert ([PLUS] + Decimal(n))[1..] == Decimal(n) && ([MINUS] + Decimal(n))[1..] == Decimal(n);
  }

  function ParseUser(line: Bytes, wanted: Bytes, index: nat): Option<User>
    requires index < 6
  {
    SplitCounts(line, 7);
    var parts := SplitN(line, 7);
    if Colons(line) < 6 then None
    else if parts[index] != wanted || parts[0] == [] || parts[0][0] == PLUS || parts[0][0] == MINUS
            || !IsI64(parts[2]) || !IsI64(parts[3]) then None
    else Some(User(parts[2], parts[3], parts[0], parts[4][..IndexOf(parts[4], COMMA)], parts[5]))
  }

  function ParseGroup(line: Bytes, wanted: Bytes, index: nat): Option<Group>
    requires index < 4
  {
    var parts := SplitN(line, 4);
    if |parts| < 4 || parts[index] != wanted || parts[0] == [] || parts[0][0] == PLUS || parts[0][0] == MINUS
       || !IsI64(parts[2]) then None
    else Some(Group(parts[2], parts[0]))
  }

  /** As many fields as colons allow. */
  lemma {:induction false} SplitCounts(s: Bytes, n: nat)
    requires n > 0
    ensures |SplitN(s, n)| == if Colons(s) < n - 1 then Colons(s) + 1 else n
  {
    var i := IndexOf(s, COLON);
    NoColons(s[..i]);
    if i < |s| {
      assert s == s[..i] + ([COLON] + s[i + 1..]);
      ColonsAppend(s[..i], [COLON] + s[i + 1..]);
      if n > 1 { SplitCounts(s[i + 1..], n - 1); }
    } else {
      assert s[..i] == s;
    }
  }

  lemma {:induction false} FindsColon(s: Bytes)
    requires Colons(s) > 0
    ensures IndexOf(s, COLON) < |s|
  {
    NoColons(s);
    assert s[..|s|] == s;
  }

  lemma {:induction false} SplitStep(first: Bytes, rest: Bytes, n: nat)
    requires COLON !in first && n > 1
    ensures SplitN(first + ([COLON] + rest), n) == [first] + SplitN(rest, n - 1)
  {
    var s := first + ([COLON] + rest);
    assert s[..|first|] == first && s[|first| + 1..] == rest;
    IndexOfIs(s, COLON, |first|);
  }

  /** All fields but the last are the same in a line and in its head. */
  lemma {:induction false} SplitHead(s: Bytes, n: nat)
    requires n > 1 && Colons(s) >= n - 1
    ensures |SplitN(s, n)| == |SplitN(Head(s, n - 1), n)| == n
    ensures forall i :: 0 <= i < n - 1 ==> SplitN(s, n)[i] == SplitN(Head(s, n - 1), n)[i]
  {
    hide SplitN, Head, Colons, IndexOf;
    var i := IndexOf(s, COLON);
    NoColons(s[..i]);
    FindsColon(s);
    var first, rest := s[..i], s[i + 1..];
    assert s == first + ([COLON] + rest);
    ColonsAppend(first, [COLON] + rest);
    HeadAppend(first, [COLON] + rest, n - 1);
    AfterColon(rest, n - 1);
    SplitStep(first, rest, n);
    SplitStep(first, Head(rest, n - 2), n);
    if n > 2 { SplitHead(rest, n - 1); } else { OnePart(rest); OnePart(Head(rest, 0)); }
  }

  lemma {:induction false} AfterColon(rest: Bytes, k: nat)
    requires k > 0
    ensures Colons([COLON] + rest) == 1 + Colons(rest) && Head([COLON] + rest, k) == [COLON] + Head(rest, k - 1)
  {
    assert ([COLON] + rest)[1..] == rest;
  }

  lemma {:induction false} OnePart(s: Bytes)
    ensures |SplitN(s, 1)| == 1
  {
  }

  // What the parsers accept

  /** The line is these `n` fields between colons; only the last may hold colons itself. */
  predicate HasFields(line: Bytes, fields: seq<Bytes>, n: nat) {
    n > 0 && |fields| == n && line == Join(fields, COLON) && forall i :: 0 <= i < n - 1 ==> COLON !in fields[i]
  }

  lemma {:induction false} SplitFinds(line: Bytes, fields: seq<Bytes>, n: nat)
    requires HasFields(line, fields, n)
    ensures SplitN(line, n) == fields && Colons(line) >= n - 1
    decreases n
  {
    hide SplitN, Colons;
    if n == 1 {
      WholePart(line);
    } else {
      assert fields == [fields[0]] + fields[1..];
      SplitFinds(Join(fields[1..], COLON), fields[1..], n - 1);
      SplitStep(fields[0], Join(fields[1..], COLON), n);
      AfterColon(Join(fields[1..], COLON), 1);
      ColonsAppend(fields[0], [COLON] + Join(fields[1..], COLON));
    }
  }

  lemma {:induction false} WholePart(s: Bytes)
    ensures SplitN(s, 1) == [s]
  {
  }

  lemma {:induction false} SplitSpells(s: Bytes, n: nat)
    requires n > 0 && Colons(s) >= n - 1
    ensures HasFields(s, SplitN(s, n), n)
  {
    hide SplitN, Colons, IndexOf;
    if n == 1 {
      WholePart(s);
    } else {
      var i := IndexOf(s, COLON);
      FindsColon(s);
      var first, rest := s[..i], s[i + 1..];
      assert s == first + ([COLON] + rest);
      NoColons(first);
      ColonsAppend(first, [COLON] + rest);
      AfterColon(rest, 1);
      SplitStep(first, rest, n);
      SplitSpells(rest, n - 1);
      assert SplitN(s, n)[1..] == SplitN(rest, n - 1);
    }
  }

  predicate NameOk(name: Bytes) {
    name != [] && name[0] != PLUS && name[0] != MINUS
  }

  /** The record of a user: name, password, numbers of user and group, full name up to a comma, home, shell. */
  predicate IsUser(line: Bytes, fields: seq<Bytes>, wanted: Bytes, index: nat, u: User)
    requires index < 6
  {
    && HasFields(line, fields, 7) && fields[index] == wanted && NameOk(fields[0]) && IsI64(fields[2]) &&
        IsI64(fields[3])
    && u.username == fields[0] && u.uid == fields[2] && u.gid == fields[3] && u.home == fields[5]
    && u.name <= fields[4] && COMMA !in u.name && (u.name == fields[4] || fields[4][|u.name|] == COMMA)
  }

  predicate IsGroup(line: Bytes, fields: seq<Bytes>, wanted: Bytes, index: nat, g: Group)
    requires index < 4
  {
    && HasFields(line, fields, 4) && fields[index] == wanted && NameOk(fields[0]) && IsI64(fields[2])
    && g.name == fields[0] && g.gid == fields[2]
  }

  /** The user parser accepts exactly the records of the wanted user. */
  lemma {:induction false} ParseUserIff(line: Bytes, wanted: Bytes, index: nat, u: User)
    requires index < 6
    ensures ParseUser(line, wanted, index) == Some(u) <==> exists fields :: IsUser(line, fields, wanted, index, u)
  {
    hide SplitN, Colons, IsI64, IndexOf, Join;
    if ParseUser(line, wanted, index) == Some(u) {
      SplitSpells(line, 7);
      assert IsUser(line, SplitN(line, 7), wanted, index, u);
    }
    if exists fields :: IsUser(line, fields, wanted, index, u) {
      var fields :| IsUser(line, fields, wanted, index, u);
      SplitFinds(line, fields, 7);
      assert fields[4][..|u.name|] == u.name;
      IndexOfIs(fields[4], COMMA, |u.name|);
    }
  }

  lemma {:induction false} ParseGroupIff(line: Bytes, wanted: Bytes, index: nat, g: Group)
    requires index < 4
    ensures ParseGroup(line, wanted, index) == Some(g) <==> exists fields :: IsGroup(line, fields, wanted, index, g)
  {
    hide SplitN, Colons, IsI64, IndexOf, Join;
    if ParseGroup(line, wanted, index) == Some(g) {
      SplitCounts(line, 4);
      SplitSpells(line, 4);
      assert IsGroup(line, SplitN(line, 4), wanted, index, g);
    }
    if exists fields :: IsGroup(line, fields, wanted, index, g) {
      var fields :| IsGroup(line, fields, wanted, index, g);
      SplitFinds(line, fields, 4);
    }
  }

  // The searches

  function UserParser(wanted: Bytes, index: nat): Bytes -> Option<User>
    requires index < 6
  {
    line => ParseUser(line, wanted, index)
  }

  function GroupParser(wanted: Bytes, index: nat): Bytes -> Option<Group>
    requires index < 4
  {
    line => ParseGroup(line, wanted, index)
  }

  lemma {:induction false} UserByHead(line: Bytes, wanted: Bytes, index: nat)
    requires index < 6 && Colons(line) >= 6
    ensures ParseUser(line, wanted, index) == ParseUser(Head(line, 6), wanted, index)
  {
    hide IsI64, SplitN, Head, IndexOf, Colons;
    SplitHead(line, 7);
    LongHead(line, 6);
  }

  lemma {:induction false} UserDecided(wanted: Bytes, index: nat)
    requires index < 6
    ensures DecidedByHead(UserParser(wanted, index), 6)
  {
    hide ParseUser, Head, Colons;
    forall line | Colons(line) >= 6 ensures ParseUser(line, wanted, index) == ParseUser(Head(line, 6), wanted, index) {
      UserByHead(line, wanted, index);
    }
  }

  lemma {:induction false} GroupByHead(line: Bytes, wanted: Bytes, index: nat)
    requires index < 3 && Colons(line) >= 3
    ensures ParseGroup(line, wanted, index) == ParseGroup(Head(line, 3), wanted, index)
  {
    hide IsI64, SplitN, Head, IndexOf, Colons;
    SplitHead(line, 4);
  }

  lemma {:induction false} GroupDecided(wanted: Bytes, index: nat)
    requires index < 3
    ensures DecidedByHead(GroupParser(wanted, index), 3)
  {
    hide ParseGroup, Head, Colons;
    forall line | Colons(line) >= 3 ensures ParseGroup(line, wanted, index) == ParseGroup(Head(line, 3), wanted,
        index) {
      GroupByHead(line, wanted, index);
    }
  }

  /** The first user of that name among the whole lines that the reader gets to see. */
  method FindUserByName(chunks: seq<Bytes>, broken: bool, name: Bytes) returns (r: Result<Option<User>, ReadFailure>)
    requires Buffered(chunks)
    ensures r == Reported(FirstOf(Seen(Concat(chunks), 6, broken), UserParser(name, 0)), broken)
  {
    hide DecidedByHead, Seen, FirstOf, Heads, Reported;
    UserDecided(name, 0);
    HeadsSuffice(Seen(Concat(chunks), 6, broken), 6, UserParser(name, 0));
    r := ReadColonFile(chunks, broken, 6, UserParser(name, 0));
  }

  method FindUserById(chunks: seq<Bytes>, broken: bool, id: Bytes) returns (r: Result<Option<User>, ReadFailure>)
    requires Buffered(chunks)
    ensures r == Reported(FirstOf(Seen(Concat(chunks), 6, broken), UserParser(id, 2)), broken)
  {
    hide DecidedByHead, Seen, FirstOf, Heads, Reported;
    UserDecided(id, 2);
    HeadsSuffice(Seen(Concat(chunks), 6, broken), 6, UserParser(id, 2));
    r := ReadColonFile(chunks, broken, 6, UserParser(id, 2));
  }

  method FindGroupByName(chunks: seq<Bytes>, broken: bool, name: Bytes) returns (r: Result<Option<Group>, ReadFailure>)
    requires Buffered(chunks)
    ensures r == Reported(FirstOf(Seen(Concat(chunks), 3, broken), GroupParser(name, 0)), broken)
  {
    hide DecidedByHead, Seen, FirstOf, Heads, Reported;
    GroupDecided(name, 0);
    HeadsSuffice(Seen(Concat(chunks), 3, broken), 3, GroupParser(name, 0));
    r := ReadColonFile(chunks, broken, 3, GroupParser(name, 0));
  }
}
