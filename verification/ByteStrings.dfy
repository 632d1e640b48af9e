/** Bytes, lines of them, and readers that deliver them in chunks. */
module ByteStrings {
  import opened Sequences

  type byte = b: int | 0 <= b < 256

  type Bytes = seq<byte>

  const NEWLINE: byte := 10

  function Concat(parts: seq<Bytes>): Bytes {
    if parts == [] then [] else parts[0] + Concat(parts[1..])
  }

  // Lines

  /** The length of the first line, without its newline. */
  function LineLen(s: Bytes): (n: nat)
    ensures n <= |s| && NEWLINE !in s[..n] && (n < |s| ==> s[n] == NEWLINE)
  {
    IndexOf(s, NEWLINE)
  }

  function AfterLine(s: Bytes): Bytes {
    if LineLen(s) < |s| then s[LineLen(s) + 1..] else []
  }

  /** The lines of a text; the last one need not be ended. */
  function Lines(s: Bytes): seq<Bytes>
    decreases |s|
  {
    if s == [] then [] else [s[..LineLen(s)]] + Lines(AfterLine(s))
  }

  lemma {:induction false} LineLenIs(s: Bytes, n: nat)
    requires n <= |s| && NEWLINE !in s[..n] && (n < |s| ==> s[n] == NEWLINE)
    ensures LineLen(s) == n
  {
    IndexOfIs(s, NEWLINE, n);
  }

  lemma {:induction false} LineEnds(s: Bytes)
    ensures LineLen(s) <= |s| && NEWLINE !in s[..LineLen(s)] && (LineLen(s) < |s| ==> s[LineLen(s)] == NEWLINE)
    ensures LineLen(s) == |s| ==> NEWLINE !in s
  {
    assert s[..|s|] == s;
  }

  lemma {:induction false} LineLenAppend(p: Bytes, s: Bytes)
    requires NEWLINE !in p
    ensures LineLen(p + s) == |p| + LineLen(s)
  {
    var n := |p| + LineLen(s);
    assert (p + s)[..n] == p + s[..LineLen(s)];
    LineLenIs(p + s, n);
  }

  // Buffered readers: what is left to read, in chunks; an empty buffer means the end

  predicate Buffered(chunks: seq<Bytes>) {
    forall i :: 0 <= i < |chunks| ==> chunks[i] != []
  }

  function FillBuf(chunks: seq<Bytes>): (available: Bytes)
    requires Buffered(chunks)
    ensures available == [] <==> Concat(chunks) == []
    ensures available <= Concat(chunks)
  {
    if chunks == [] then [] else chunks[0]
  }

  function Skip(chunks: seq<Bytes>, n: nat): (left: seq<Bytes>)
    requires Buffered(chunks) && n <= |FillBuf(chunks)|
    ensures Buffered(left) && |FillBuf(chunks)| <= |Concat(chunks)| && Concat(left) == Concat(chunks)[n..]
  {
    if chunks == [] then []
    else if n == |chunks[0]| then chunks[1..]
    else
      var left := [chunks[0][n..]] + chunks[1..];
      assert left[1..] == chunks[1..];
      left
  }
}
