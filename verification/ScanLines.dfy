/** The bounded line scanner of the journal reader. */
module ScanLines {
  import opened Wrappers
  import opened ByteStrings

  const CR: byte := 13

  /** Lines of this many bytes or more are refused. */
  const MAX_SCAN_TOKEN_SIZE := 65536

  datatype ScanError = TooLong | ReadFailed

  // What the scanner means: lines of the whole input

  function DropCr(line: Bytes): Bytes {
    if line != [] && line[|line| - 1] == CR then line[..|line| - 1] else line
  }

  /**
    * The lines and the error, if any, that reading a text to its end must give, when the reader then stops
    * (`broken` false) or fails. The first line that is too long ends it.
    */
  function Scan(text: Bytes, broken: bool): (seq<Bytes>, Option<ScanError>)
    decreases |text|
  {
    if text == [] then ([], if broken then Some(ReadFailed) else None)
    else if LineLen(text) >= MAX_SCAN_TOKEN_SIZE then ([], Some(TooLong))
    else
      var (lines, error) := Scan(AfterLine(text), broken);
      ([DropCr(text[..LineLen(text)])] + lines, error)
  }

  /** How many lines come before the first that is too long. */
  function ShortLines(lines: seq<Bytes>): (n: nat)
    ensures n <= |lines| && forall i :: 0 <= i < n ==> |lines[i]| < MAX_SCAN_TOKEN_SIZE
    ensures n < |lines| ==> |lines[n]| >= MAX_SCAN_TOKEN_SIZE
  {
    if lines == [] || |lines[0]| >= MAX_SCAN_TOKEN_SIZE then 0 else 1 + ShortLines(lines[1..])
  }

  function DropCrs(lines: seq<Bytes>): seq<Bytes> {
    seq(|lines|, i requires 0 <= i < |lines| => DropCr(lines[i]))
  }

  /** The same over a list of lines. */
  function ScanList(lines: seq<Bytes>, broken: bool): (seq<Bytes>, Option<ScanError>) {
    if lines == [] then ([], if broken then Some(ReadFailed) else None)
    else if |lines[0]| >= MAX_SCAN_TOKEN_SIZE then ([], Some(TooLong))
    else ([DropCr(lines[0])] + ScanList(lines[1..], broken).0, ScanList(lines[1..], broken).1)
  }

  lemma {:induction false} ScanLists(text: Bytes, broken: bool)
    ensures Scan(text, broken) == ScanList(Lines(text), broken)
    decreases |text|
  {
    hide DropCr, LineLen, AfterLine;
    if text != [] {
      AfterLineShorter(text);
      LineWithin(text);
      ScanLists(AfterLine(text), broken);
      assert Lines(text)[1..] == Lines(AfterLine(text));
    }
  }

  lemma {:induction false} ListUpToLong(lines: seq<Bytes>, broken: bool)
    ensures var n := ShortLines(lines);
            && ScanList(lines, broken).0 == DropCrs(lines[..n])
            && ScanList(lines, broken).1 == if n < |lines| then Some(TooLong)
                else if broken then Some(ReadFailed) else None
  {
    hide DropCr;
    if lines != [] && |lines[0]| < MAX_SCAN_TOKEN_SIZE {
      var rest := lines[1..];
      ListUpToLong(rest, broken);
      var n := ShortLines(rest);
      assert lines[..n + 1][0] == lines[0] && lines[..n + 1][1..] == rest[..n];
      assert DropCrs(lines[..n + 1]) == [DropCr(lines[0])] + DropCrs(rest[..n]);
    }
  }

  /** Scanning is splitting at newlines, up to the first line of 65536 bytes or more. */
  lemma {:induction false} ScanIsSplit(text: Bytes, broken: bool)
    ensures var lines := Lines(text);
            var n := ShortLines(lines);
            && Scan(text, broken).0 == DropCrs(lines[..n])
            && Scan(text, broken).1 == if n < |lines| then Some(TooLong) else if broken then Some(ReadFailed) else None
  {
    ScanLists(text, broken);
    ListUpToLong(Lines(text), broken);
  }

  /** Each scanned line, with the one carriage return taken off its end put back, is the line of the text. */
  lemma {:induction false} ScannedLine(text: Bytes, broken: bool, i: nat)
    requires i < ShortLines(Lines(text))
    ensures |Scan(text, broken).0| == ShortLines(Lines(text))
    ensures var line, scanned := Lines(text)[i], Scan(text, broken).0[i];
            line == if line != [] && line[|line| - 1] == CR then scanned + [CR] else scanned
  {
    hide Scan, Lines;
    ScanIsSplit(text, broken);
    var line := Lines(text)[i];
    assert line == Lines(text)[..ShortLines(Lines(text))][i];
    assert line != [] ==> line == line[..|line| - 1] + [line[|line| - 1]];
  }

  lemma {:induction false} LineWithin(text: Bytes)
    ensures LineLen(text) <= |text| && |text[..LineLen(text)]| == LineLen(text)
  {
  }

  lemma {:induction false} AfterLineShorter(text: Bytes)
    requires text != []
    ensures |AfterLine(text)| < |text|
  {
  }

  /** An answer that takes the text `before` to the text `after`. */
  predicate Yields(before: Bytes, r: Result<Option<Bytes>, ScanError>, after: Bytes, broken: bool) {
    match r
    case Err(error) => Scan(before, broken) == ([], Some(error))
    case Ok(None) => Scan(before, broken) == ([], None)
    case Ok(Some(line)) => Scan(before, broken) == ([line] + Scan(after, broken).0, Scan(after, broken).1)
  }

  // The scanner

  /**
    * One line from a reader with `chunks` left, which then fails or ends; the error may have to wait for the next
    * call.
    */
  method ScanOne(chunks: seq<Bytes>, broken: bool)
    returns (r: Result<Option<Bytes>, ScanError>, left: seq<Bytes>, pending: bool)
    requires Buffered(chunks)
    ensures Buffered(left) && Yields(Concat(chunks), r, Concat(left), broken)
    ensures pending ==> broken && Concat(left) == []
    ensures r != Err(TooLong) ==> |Concat(left)| < |Concat(chunks)| || Concat(chunks) == [] == Concat(left)
  {
    hide LineLen, AfterLine, Scan, Yields, DropCr, Skip, FillBuf, Concat, Buffered;
    left, pending := chunks, false;
    var line: Bytes := [];
    assert Concat(chunks) == line + Concat(left);
    while true
      invariant Buffered(left) && NEWLINE !in line && |line| < MAX_SCAN_TOKEN_SIZE && !pending
      invariant Concat(chunks) == line + Concat(left)
      decreases |Concat(left)|
    {
      var available := FillBuf(left);
      ghost var rest := Concat(left)[|available|..];
      assert Concat(left) == available + rest;
      if available == [] {
        assert Concat(left) == [] && line == Concat(chunks);
        if line == [] {
          NothingLeft(line, broken);
          return if broken then Err(ReadFailed) else Ok(None), left, false;
        }
        LastFragment(line, broken);
        return Ok(Some(DropCr(line))), left, broken;
      }
      var newline := LineLen(available);
      LineEnds(available);
      if newline < |available| {
        FirstLine(line, available, rest, newline, broken);
        if |line| + newline + 1 > MAX_SCAN_TOKEN_SIZE {
          return Err(TooLong), left, false;
        }
        line := line + available[..newline];
        left := Skip(left, newline + 1);
        assert Concat(left) == available[newline + 1..] + rest;
        return Ok(Some(DropCr(line))), left, false;
      }
      if |line| + |available| >= MAX_SCAN_TOKEN_SIZE {
        LongLine(line, available, rest, Concat(left), broken);
        return Err(TooLong), left, false;
      }
      assert line + (available + rest) == (line + available) + rest;
      line := line + available;
      left := Skip(left, |available|);
      assert Concat(left) == rest;
    }
  }

  /** The scanner over a reader that delivers `chunks`, fails, and delivers the next of `later`, until none is left. */
  class LineScanner {
    var chunks: seq<Bytes>
    var later: seq<seq<Bytes>>
    var pending: bool

    ghost predicate Valid()
      reads this
    {
      && Buffered(chunks) && (forall i :: 0 <= i < |later| ==> Buffered(later[i]))
      && (pending ==> Concat(chunks) == [] && later != [])
    }

    /** What the reader delivers before it fails or ends. */
    ghost function Text(): Bytes
      reads this
    {
      Concat(chunks)
    }

    constructor (chunks: seq<Bytes>, later: seq<seq<Bytes>>)
      requires Buffered(chunks) && forall i :: 0 <= i < |later| ==> Buffered(later[i])
      ensures Valid() && Text() == Concat(chunks) && !pending && this.later == later
    {
      this.chunks, this.later, pending := chunks, later, false;
    }

    /** The next line without its ending, nothing at the end, or an error; behind a read error reading goes on. */
    method NextLine() returns (r: Result<Option<Bytes>, ScanError>)
      requires Valid()
      modifies this
      ensures Valid() && Yields(old(Text()), r, Text(), old(later) != [])
      ensures r != Err(ReadFailed) ==> later == old(later)
      ensures r.Ok? ==> |Text()| < |old(Text())| || Text() == [] == old(Text())
      ensures r == Err(ReadFailed) ==>
                old(later) != [] && Text() == Concat(old(later)[0]) && later == old(later)[1..] && !pending
    {
      hide Scan, Concat, Buffered;
      if pending {
        pending := false;
        NothingLeft(Text(), later != []);
        chunks, later := later[0], later[1..];
        return Err(ReadFailed);
      }
      r, chunks, pending := ScanOne(chunks, later != []);
      if r == Err(ReadFailed) {
        FailsAtError(old(Text()), old(later) != []);
        chunks, later := later[0], later[1..];
        pending := false;
      }
    }
  }

  lemma {:induction false} FailsAtError(text: Bytes, broken: bool)
    requires Scan(text, broken).1 == Some(ReadFailed)
    ensures broken
  {
    ScanIsSplit(text, broken);
  }

  lemma {:induction false} NothingLeft(text: Bytes, broken: bool)
    requires text == []
    ensures Yields(text, if broken then Err(ReadFailed) else Ok(None), text, broken)
  {
  }

  lemma {:induction false} LastFragment(text: Bytes, broken: bool)
    requires text != [] && NEWLINE !in text && |text| < MAX_SCAN_TOKEN_SIZE
    ensures Yields(text, Ok(Some(DropCr(text))), [], broken)
  {
    LineLenIs(text, |text|);
    assert text[..|text|] == text;
  }

  lemma {:induction false} FirstLine(line: Bytes, available: Bytes, rest: Bytes, newline: nat, broken: bool)
    requires NEWLINE !in line && newline < |available| && available[newline] == NEWLINE &&
        NEWLINE !in available[..newline]
    ensures var first := line + available[..newline];
            Yields(line + (available + rest),
                   if |first| >= MAX_SCAN_TOKEN_SIZE then Err(TooLong) else Ok(Some(DropCr(first))),
                   if |first| >= MAX_SCAN_TOKEN_SIZE then available + rest else available[newline + 1..] + rest, broken)
  {
    hide LineLen, DropCr;
    var text, first := line + (available + rest), line + available[..newline];
    assert text == first + ([NEWLINE] + (available[newline + 1..] + rest));
    assert text[..|first|] == first && text[|first|] == NEWLINE;
    LineLenIs(text, |first|);
    assert AfterLine(text) == available[newline + 1..] + rest;
  }

  lemma {:induction false} LongLine(line: Bytes, available: Bytes, rest: Bytes, after: Bytes, broken: bool)
    requires NEWLINE !in line && NEWLINE !in available && |line| + |available| >= MAX_SCAN_TOKEN_SIZE
    ensures Yields(line + (available + rest), Err(TooLong), after, broken)
  {
    hide LineLen;
    var text := line + (available + rest);
    assert text == (line + available) + rest;
    LineLenAppend(line + available, rest);
  }

  // The entry reader: one error at most, then nothing

  datatype Entry = Line(text: Bytes) | Failure(error: ScanError)

  /** The entries of an input: its lines, then the error if there is one. */
  function Entries(text: Bytes, broken: bool): seq<Entry> {
    var (lines, error) := Scan(text, broken);
    seq(|lines|, i requires 0 <= i < |lines| => Line(lines[i])) + if error.Some? then [Failure(error.value)] else []
  }

  lemma {:induction false} FirstEntry(before: Bytes, r: Result<Option<Bytes>, ScanError>, after: Bytes, broken: bool)
    requires Yields(before, r, after, broken)
    ensures Entries(before, broken)
            == match r
               case Ok(Some(line)) => [Line(line)] + Entries(after, broken)
               case Ok(None) => []
               case Err(error) => [Failure(error)]
  {
    hide Scan;
  }

  class EntryReader {
    const lines: LineScanner
    var finished: bool

    constructor (lines: LineScanner)
      ensures this.lines == lines && !finished
    {
      this.lines, finished := lines, false;
    }

    ghost function Remaining(): seq<Entry>
      reads this, lines
    {
      if finished then [] else Entries(lines.Text(), lines.later != [])
    }

    /** Each call yields the next of the entries that the whole input stands for, and nothing after the last. */
    method Next() returns (r: Option<Entry>)
      requires lines.Valid()
      modifies this, lines
      ensures lines.Valid()
      ensures old(Remaining()) == if r.Some? then [r.value] + Remaining() else []
      ensures r.None? ==> Remaining() == []
    {
      hide Scan, Entries, Concat;
      if finished {
        return None;
      }
      var next := lines.NextLine();
      FirstEntry(old(lines.Text()), next, lines.Text(), old(lines.later) != []);
      match next {
        case Ok(Some(line)) =>
          r := Some(Line(line));
        case Ok(None) =>
          finished := true;
          r := None;
        case Err(error) =>
          finished := true;
          r := Some(Failure(error));
      }
    }
  }
}
