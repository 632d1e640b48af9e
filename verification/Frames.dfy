/** Length-prefixed frames over a connection whose reads may stop anywhere. */
module Frames {
  import opened Wrappers
  import opened ByteStrings

  const U32_SIZE := 0x1_0000_0000

  // What a stream of bytes means

  function BigEndian(n: nat): (head: Bytes)
    ensures |head| == 4
  {
    [n / 0x100_0000 % 256, n / 0x1_0000 % 256, n / 0x100 % 256, n % 256]
  }

  function DeclaredLength(head: Bytes): nat
    requires |head| == 4
  {
    var a: int, b: int, c: int, d: int := head[0], head[1], head[2], head[3];
    a * 0x100_0000 + b * 0x1_0000 + c * 0x100 + d
  }

  /** The first whole frame of a stream and what follows it. */
  function FirstFrame(s: Bytes): Option<(Bytes, Bytes)> {
    if |s| < 4 || |s| < 4 + DeclaredLength(s[..4]) then None
    else Some((s[4..4 + DeclaredLength(s[..4])], s[4 + DeclaredLength(s[..4])..]))
  }

  /** All whole frames of a stream, and the incomplete frame at its end. */
  function AllFrames(s: Bytes): (seq<Bytes>, Bytes)
    decreases |s|
  {
    match FirstFrame(s)
    case None => ([], s)
    case Some((frame, rest)) => var (frames, end) := AllFrames(rest); ([frame] + frames, end)
  }

  /** Writing a frame; the length is cut to 32 bits. */
  function EncodeFrame(data: Bytes): Bytes {
    BigEndian(|data| % U32_SIZE) + data
  }

  function EncodeAll(messages: seq<Bytes>): Bytes {
    if messages == [] then [] else EncodeFrame(messages[0]) + EncodeAll(messages[1..])
  }

  lemma {:induction false} LengthRoundTrip(n: nat)
    requires n < U32_SIZE
    ensures DeclaredLength(BigEndian(n)) == n
  {
    var a, b, c := n / 0x100_0000, n / 0x1_0000, n / 0x100;
    assert c == n / 0x100 && b == c / 0x100 && a == b / 0x100 && a < 256;
    assert n == c * 256 + n % 256 && c == b * 256 + c % 256 && b == a * 256 + b % 256;
  }

  lemma {:induction false} HeadRoundTrip(head: Bytes)
    requires |head| == 4
    ensures DeclaredLength(head) < U32_SIZE && BigEndian(DeclaredLength(head)) == head
  {
    var n := DeclaredLength(head);
    var a: int := head[0];
    var b: int := a * 256 + head[1];
    var c: int := b * 256 + head[2];
    assert n == c * 256 + head[3];
    assert n / 256 == c && c / 256 == b && b / 256 == a;
    assert n / 0x1_0000 == b && n / 0x100_0000 == a;
  }

  /** A written frame is read back exactly if its length fits in 32 bits, whatever follows it. */
  lemma {:induction false} FrameRoundTripIff(data: Bytes, rest: Bytes)
    ensures FirstFrame(EncodeFrame(data) + rest) == Some((data, rest)) <==> |data| < U32_SIZE
  {
    hide BigEndian, DeclaredLength;
    var s, n := EncodeFrame(data) + rest, |data| % U32_SIZE;
    LengthRoundTrip(n);
    assert s[..4] == BigEndian(n);
    assert s[4..] == data + rest;
    assert |data| < U32_SIZE ==> s[4..4 + n] == data && s[4 + n..] == rest;
  }

  /** A frame of exactly 2^32 bytes declares no length at all, so it is read as an empty frame and its bytes as more. */
  lemma {:induction false} LongestFrameLosesLength(data: Bytes)
    requires |data| == U32_SIZE
    ensures FirstFrame(EncodeFrame(data)) == Some(([], data))
  {
    hide BigEndian, DeclaredLength;
    LengthRoundTrip(0);
    var s := EncodeFrame(data);
    assert s[..4] == BigEndian(0) && s[4..] == data && s[4..4] == [];
    assert FirstFrame(s) == Some((s[4..4], s[4..]));
  }

  /** Concatenated frames are read back as the messages written, empty ones included. */
  lemma {:induction false} EncodedMessagesReadBack(messages: seq<Bytes>, end: Bytes)
    requires forall i :: 0 <= i < |messages| ==> |messages[i]| < U32_SIZE
    requires FirstFrame(end) == None
    ensures AllFrames(EncodeAll(messages) + end) == (messages, end)
  {
    hide EncodeFrame;
    if messages == [] {
      assert [] + end == end;
      hide FirstFrame;
    } else {
      hide FirstFrame;
      EncodedMessagesReadBack(messages[1..], end);
      assert EncodeAll(messages) + end == EncodeFrame(messages[0]) + (EncodeAll(messages[1..]) + end);
      FrameRoundTripIff(messages[0], EncodeAll(messages[1..]) + end);
      assert messages == [messages[0]] + messages[1..];
    }
  }

  lemma {:induction false} FirstFrameSpelled(s: Bytes)
    requires FirstFrame(s).Some?
    ensures var (frame, rest) := FirstFrame(s).value; s == EncodeFrame(frame) + rest && |frame| < U32_SIZE
  {
    hide BigEndian, DeclaredLength;
    HeadRoundTrip(s[..4]);
  }

  /** The parse is unique: the frames read are the only messages whose encoding the stream starts with. */
  lemma {:induction false} ParseIsUnique(s: Bytes, messages: seq<Bytes>, end: Bytes)
    ensures AllFrames(s) == (messages, end)
            <==> s == EncodeAll(messages) + end && FirstFrame(end) == None
                 && forall i :: 0 <= i < |messages| ==> |messages[i]| < U32_SIZE
  {
    hide FirstFrame, EncodeFrame;
    Spelled(s);
    if s == EncodeAll(messages) + end && FirstFrame(end) == None
       && forall i :: 0 <= i < |messages| ==> |messages[i]| < U32_SIZE {
      EncodedMessagesReadBack(messages, end);
    }
  }

  lemma {:induction false} Spelled(s: Bytes)
    ensures var (frames, end) := AllFrames(s);
            && s == EncodeAll(frames) + end && FirstFrame(end) == None
            && forall i :: 0 <= i < |frames| ==> |frames[i]| < U32_SIZE
    decreases |s|
  {
    if FirstFrame(s).None? {
      assert s == [] + s;
    } else {
      FirstFrameSpelled(s);
      var (frame, rest) := FirstFrame(s).value;
      Spelled(rest);
      var (frames, end) := AllFrames(rest);
      assert ([frame] + frames)[1..] == frames;
      assert EncodeFrame(frame) + (EncodeAll(frames) + end) == EncodeFrame(frame) + EncodeAll(frames) + end;
    }
  }

  // The reader

  /** How one read of the connection goes: it offers up to `limit` bytes, fails, or its caller gives up first. */
  datatype Attempt = Ready(limit: nat) | Broken | Abandoned

  datatype Outcome = Frame(data: Bytes) | UnexpectedEof | ReadFailed | Cancelled

  /** What one call does to the stream from the last frame boundary on. */
  predicate Call(before: Bytes, outcome: Outcome, after: Bytes) {
    match outcome
    case Frame(data) => FirstFrame(before) == Some((data, after))
    case UnexpectedEof => FirstFrame(before) == None && after == before
    case _ => after == before
  }

  lemma {:induction false} WholeFrame(head: Bytes, data: Bytes, rest: Bytes)
    requires |head| == 4 && |data| == DeclaredLength(head)
    ensures FirstFrame(head + data + rest) == Some((data, rest))
  {
    hide DeclaredLength;
    var s := head + data + rest;
    assert s[..4] == head;
  }

  lemma {:induction false} CutFrame(head: Bytes, data: Bytes)
    requires if |head| < 4 then data == [] else |head| == 4 && |data| < DeclaredLength(head)
    ensures FirstFrame(head + data) == None
  {
    hide DeclaredLength;
    if |head| == 4 { assert (head + data)[..4] == head; }
  }

  class AdminResponses {
    const head: array<byte>
    var headRead: nat
    var data: array?<byte>
    var dataRead: nat
    /** What the connection has yet to deliver. */
    var incoming: Bytes

    ghost predicate Valid()
      reads this, head, data
    {
      && head.Length == 4 && headRead <= 4 && data != head
      && (data == null ==> dataRead == 0)
      && (data != null ==> headRead == 4 && data.Length == DeclaredLength(head[..]) && dataRead <= data.Length)
    }

    /** The stream from the last frame boundary on: what was read of the current frame, then what is to come. */
    ghost function Unread(): Bytes
      requires Valid()
      reads this, head, data
    {
      head[..headRead] + (if data == null then [] else data[..dataRead]) + incoming
    }

    constructor (stream: Bytes)
      ensures Valid() && Unread() == stream && fresh(head) && data == null
    {
      head := new byte[4];
      headRead := 0;
      data := null;
      dataRead := 0;
      incoming := stream;
    }

    /** One read into the free part of a buffer; nothing is read only at the end of the stream. */
    method Read(buffer: array<byte>, from: nat, limit: nat) returns (read: nat)
      requires from < buffer.Length
      modifies buffer, `incoming
      ensures read <= |old(incoming)| && from + read <= buffer.Length
      ensures read == 0 <==> old(incoming) == []
      ensures incoming == old(incoming)[read..]
      ensures buffer[..from + read] == old(buffer[..from]) + old(incoming)[..read]
    {
      var most := if limit == 0 then 1 else limit;
      most := if most > buffer.Length - from then buffer.Length - from else most;
      read := if most > |incoming| then |incoming| else most;
      for i := 0 to read
        modifies buffer
        invariant buffer[..from + i] == old(buffer[..from]) + incoming[..i]
      {
        buffer[from + i] := incoming[i];
        assert buffer[..from + i + 1] == buffer[..from + i] + [incoming[i]];
      }
      incoming := incoming[read..];
    }

    /** Read until the head is complete; `stop` says why it is not. */
    method FillHead(attempts: seq<Attempt>) returns (used: nat, stop: Option<Outcome>)
      requires Valid()
      modifies `headRead, `incoming, head
      ensures Valid() && used <= |attempts| && Unread() == old(Unread()) && used + |incoming| <= |old(incoming)|
      ensures stop.None? ==> headRead == 4
      ensures stop == Some(ReadFailed) ==> Broken in attempts
      ensures stop == Some(Cancelled) ==> Abandoned in attempts || used == |attempts|
      ensures stop.Some? ==> !stop.value.Frame? && Call(Unread(), stop.value, Unread())
    {
      hide DeclaredLength, FirstFrame;
      used := 0;
      while headRead < head.Length
        invariant Valid() && used <= |attempts| && Unread() == old(Unread())
        invariant used + |incoming| <= |old(incoming)|
        invariant old(headRead) == 4 ==> headRead == 4 && head[..] == old(head[..])
        decreases head.Length - headRead
      {
        if used == |attempts| || attempts[used].Abandoned? {
          return used, Some(Cancelled);
        }
        if attempts[used].Broken? {
          return used, Some(ReadFailed);
        }
        var read := Read(head, headRead, attempts[used].limit);
        if read == 0 {
          CutFrame(head[..headRead], []);
          assert Unread() == head[..headRead] + [];
          return used, Some(UnexpectedEof);
        }
        headRead := headRead + read;
        used := used + 1;
      }
      stop := None;
    }

    /** Read until the data is complete. */
    method FillData(attempts: seq<Attempt>) returns (stop: Option<Outcome>)
      requires Valid() && data != null
      modifies `dataRead, `incoming, data
      ensures Valid() && Unread() == old(Unread())
      ensures stop.None? ==> dataRead == data.Length
      ensures stop == Some(ReadFailed) ==> Broken in attempts
      ensures stop == Some(Cancelled) ==> Abandoned in attempts || |attempts| + |incoming| <= |old(incoming)|
      ensures stop.Some? ==> !stop.value.Frame? && Call(Unread(), stop.value, Unread())
    {
      hide DeclaredLength, FirstFrame;
      var used := 0;
      while dataRead < data.Length
        invariant Valid() && used <= |attempts| && Unread() == old(Unread()) && used + |incoming| <= |old(incoming)|
        decreases data.Length - dataRead
      {
        if used == |attempts| || attempts[used].Abandoned? {
          return Some(Cancelled);
        }
        if attempts[used].Broken? {
          return Some(ReadFailed);
        }
        ghost var had := data[..dataRead];
        var read := Read(data, dataRead, attempts[used].limit);
        if read == 0 {
          assert data[..dataRead] == had;
          CutFrame(head[..], had);
          assert Unread() == head[..] + had;
          return Some(UnexpectedEof);
        }
        assert data[..dataRead + read] == had + data[dataRead..dataRead + read];
        dataRead := dataRead + read;
        used := used + 1;
      }
      stop := None;
    }

    method ReadFrame(attempts: seq<Attempt>) returns (outcome: Outcome)
      requires Valid()
      modifies this, head, data
      ensures Valid() && (data == old(data) || data == null || fresh(data))
      ensures Call(old(Unread()), outcome, Unread())
      ensures outcome == ReadFailed ==> Broken in attempts
      ensures outcome == Cancelled ==> Abandoned in attempts || |attempts| <= |old(Unread())|
    {
      hide DeclaredLength, FirstFrame;
      var used, stop := FillHead(attempts);
      if stop.Some? {
        return stop.value;
      }
      if data == null {
        data := new byte[DeclaredLength(head[..])];
        dataRead := 0;
      }
      stop := FillData(attempts[used..]);
      if stop.Some? {
        return stop.value;
      }
      outcome := Frame(data[..]);
      assert old(Unread()) == head[..] + data[..] + incoming;
      WholeFrame(head[..], data[..], incoming);
      for k := 0 to 4
        modifies head
      {
        head[k] := 0;
      }
      headRead := 0;
      dataRead := 0;
      data := null;
      assert Unread() == incoming;
    }
  }

  // Whole runs

  /** A run of calls: `streams[i]` is the stream before call `i`, and its outcome is `outcomes[i]`. */
  predicate IsRun(streams: seq<Bytes>, outcomes: seq<Outcome>) {
    && |streams| == |outcomes| + 1
    && forall i :: 0 <= i < |outcomes| ==> Call(streams[i], outcomes[i], streams[i + 1])
  }

  function Delivered(outcomes: seq<Outcome>): seq<Bytes> {
    if outcomes == [] then []
    else (if outcomes[0].Frame? then [outcomes[0].data] else []) + Delivered(outcomes[1..])
  }

  /**
    * However reads are split, abandoned or broken, the frames delivered by a run of calls are those of the
    * stream, in order, up to where the run is; when a call meets the end of the stream they are all of them.
    */
  lemma {:induction false} RunDeliversParse(streams: seq<Bytes>, outcomes: seq<Outcome>)
    requires IsRun(streams, outcomes)
    ensures AllFrames(streams[0]).0 == Delivered(outcomes) + AllFrames(streams[|outcomes|]).0
    ensures UnexpectedEof in outcomes ==> AllFrames(streams[0]).0 == Delivered(outcomes)
    decreases |outcomes|
  {
    hide FirstFrame;
    if outcomes != [] {
      RunDeliversParse(streams[1..], outcomes[1..]);
      assert Call(streams[0], outcomes[0], streams[1]);
      if outcomes[0].UnexpectedEof? {
        assert AllFrames(streams[0]).0 == [];
      }
    }
  }
}
