/** Base 128 varints and the rewriting of response envelopes. */
module Payload {
  import opened Wrappers
  import opened Bits
  import opened ByteStrings

  datatype PayloadError =
    | Overflow
    | UnexpectedEof
    | UnexpectedFormat(tag: nat)
    | UnexpectedSize(size: nat)
    | InvalidMetadata

  const U64_BITS: nat := 64

  // Varints

  /** The number that little-endian groups of seven bits stand for. */
  function Base128(s: Bytes): nat {
    if s == [] then 0 else Base128(s[..|s| - 1]) + (s[|s| - 1] % 128) * Pow2(7 * (|s| - 1))
  }

  /** How many leading bytes carry the continuation bit. */
  function Continued(s: Bytes): (k: nat)
    ensures k <= |s| && (forall i :: 0 <= i < k ==> s[i] >= 128) && (k < |s| ==> s[k] < 128)
  {
    if s == [] || s[0] < 128 then 0 else 1 + Continued(s[1..])
  }

  /** The varint at the head of the bytes and its length: at most ten bytes, the tenth at most 1. */
  function Consume(s: Bytes): Result<(nat, nat), PayloadError> {
    var k := Continued(s);
    if k < 9 && k < |s| then Ok((Base128(s[..k + 1]), k + 1))
    else if |s| < 10 then Err(UnexpectedEof)
    else if s[9] > 1 then Err(Overflow)
    else Ok((Base128(s[..10]), 10))
  }

  method ConsumeVarint(s: Bytes) returns (r: Result<(nat, nat), PayloadError>)
    ensures r == Consume(s)
  {
    hide Pow2, Or, And, ShiftLeft, Continued, Base128;
    assert s[..0] == [] && Base128([]) == 0 by { EmptyGroups(); }
    var value := 0;
    var index := 0;
    while index < |s| && index < 10
      invariant 0 <= index <= |s| && index <= 10
      invariant forall i :: 0 <= i < index ==> s[i] >= 128
      invariant index == 10 ==> s[9] <= 1
      invariant value == Base128(s[..index]) < Pow2(7 * index)
    {
      var b := s[index];
      if index == 9 && b > 1 {
        TenBytes(s);
        return Err(Overflow);
      }
      AccumulateGroup(value, b, index, s);
      value := Or(value, ShiftLeft(And(b, 0x7f), index * 7, U64_BITS));
      if b < 0x80 {
        ContinuedIs(s, index);
        return Ok((value, index + 1));
      }
      index := index + 1;
    }
    ContinuedIs(s, index);
    r := Err(UnexpectedEof);
  }

  lemma {:induction false} EmptyGroups()
    ensures Base128([]) == 0
  {
  }

  lemma {:induction false} TenBytes(s: Bytes)
    requires |s| >= 10 && forall i :: 0 <= i < 9 ==> s[i] >= 128
    ensures Continued(s) >= 9
  {
    var k := Continued(s);
    assert k < |s| ==> s[k] < 128;
  }

  lemma {:induction false} ContinuedIs(s: Bytes, k: nat)
    requires k <= |s| && (forall i :: 0 <= i < k ==> s[i] >= 128) && (k < |s| ==> s[k] < 128)
    ensures Continued(s) == k
  {
  }

  /** A group of seven bits above the groups so far stays in the next group's range, and in the word. */
  lemma {:induction false} GroupInWord(g: nat, index: nat, value: nat)
    requires g < 128 && index < 10 && (index == 9 ==> g <= 1) && value < Pow2(7 * index)
    ensures 0 <= g * Pow2(7 * index) <= value + g * Pow2(7 * index) < Pow2(7 * (index + 1))
    ensures value + g * Pow2(7 * index) < Pow2(U64_BITS)
  {
    hide Pow2;
    GroupBelow(g, Pow2(7 * index), value);
    Pow2Add(7, 7 * index);
    SmallPowers();
    if index < 9 { Pow2Monotone(7 * (index + 1), U64_BITS); } else { Pow2Add(1, 63); }
  }

  lemma {:induction false} GroupShifts(g: nat, index: nat)
    requires g < 128 && index < 10 && (index == 9 ==> g <= 1)
    ensures ShiftLeft(g, 7 * index, U64_BITS) == g * Pow2(7 * index)
  {
    hide Pow2;
    GroupInWord(g, index, 0);
    DivUnique(g * Pow2(7 * index), Pow2(U64_BITS), 0);
  }

  /** Moved above the groups so far, it does not meet them. */
  lemma {:induction false} GroupJoins(g: nat, index: nat, value: nat)
    requires value < Pow2(7 * index) && 0 <= g * Pow2(7 * index)
    ensures Or(value, g * Pow2(7 * index)) == value + g * Pow2(7 * index)
  {
    hide Pow2, Or;
    var moved := g * Pow2(7 * index);
    assert moved % Pow2(7 * index) == 0 by { IsMultiple(g, Pow2(7 * index)); }
    OrDisjoint(moved, value, 7 * index);
    OrCommutes(value, moved);
  }

  lemma {:induction false} IsMultiple(g: nat, p: nat)
    requires p > 0
    ensures (g * p) % p == 0
  {
    assert g * p == p * g;
    MulMod(p, g);
  }

  lemma {:induction false} SmallPowers()
    ensures Pow2(0) == 1 && Pow2(1) == 2 && Pow2(7) == 128
  {
    assert Pow2(3) == 8;
  }

  lemma GroupBelow(g: nat, p: nat, value: nat)
    requires g < 128 && value < p
    ensures 0 <= g * p && value + g * p < 128 * p && (g <= 1 ==> g * p <= p) && p * g == g * p
  {
    MulLe(p, g, 127);
  }

  lemma {:induction false} AccumulateGroup(value: nat, b: byte, index: nat, s: Bytes)
    requires index < |s| && index < 10 && s[index] == b && (index == 9 ==> b <= 1)
    requires value == Base128(s[..index]) < Pow2(7 * index)
    ensures Or(value, ShiftLeft(And(b, 0x7f), index * 7, U64_BITS)) == Base128(s[..index + 1]) < Pow2(7 * (index + 1))
  {
    hide Pow2, Or, ShiftLeft;
    assert And(b, 0x7f) == b % 128 by { SmallPowers(); AndLowMask(b, 7); }
    GroupInWord(b % 128, index, value);
    GroupShifts(b % 128, index);
    GroupJoins(b % 128, index, value);
    assert s[..index + 1][..index] == s[..index];
  }

  function Encode(value: nat): Bytes {
    if value < 128 then [value] else [value % 128 + 128] + Encode(value / 128)
  }

  lemma {:induction false} TopBit(x: nat)
    ensures Or(x % 256, 0x80) == x % 128 + 128
  {
    hide Or, Pow2;
    SmallPowers();
    OrTopBit(x % 256, 7);
    HalfRemainders(x);
  }

  lemma {:induction false} HalfRemainders(x: nat)
    ensures (x % 256) % 128 == x % 128
  {
    var q := x / 128;
    DivUnique(x, 256, q / 2);
    DivUnique(x % 256, 128, q % 2);
  }

  method EncodeVarint(value: nat, output: Bytes) returns (r: Bytes)
    ensures r == output + Encode(value)
  {
    var left := value;
    r := output;
    while left >= 0x80
      invariant r + Encode(left) == output + Encode(value)
    {
      TopBit(left);
      r := r + [Or(left % 256, 0x80)];
      left := left / 128;
    }
    r := r + [left];
  }

  /** Encoding keeps the value: every byte but the last is continued, and the groups spell the value. */
  lemma {:induction false} EncodeSpells(value: nat)
    ensures Encode(value) != [] && Base128(Encode(value)) == value
    ensures Continued(Encode(value)) == |Encode(value)| - 1
  {
    hide Pow2, Base128;
    var e := Encode(value);
    if value < 128 {
      EmptyGroups();
      Base128Shift(value, []);
      assert [value] + [] == e;
    } else {
      EncodeSpells(value / 128);
      Base128Shift(value % 128 + 128, Encode(value / 128));
      assert e[1..] == Encode(value / 128);
    }
  }

  lemma {:induction false} Base128Shift(b: byte, s: Bytes)
    ensures Base128([b] + s) == b % 128 + 128 * Base128(s)
  {
    hide Pow2;
    assert Pow2(0) == 1 && Pow2(7) == 128 by { SmallPowers(); }
    if s == [] {
      assert ([b] + s)[..0] == [];
    } else {
      var n := |s|;
      Base128Shift(b, s[..n - 1]);
      assert ([b] + s)[..n] == [b] + s[..n - 1];
      Pow2Add(7, 7 * (n - 1));
      ScaleGroup(s[n - 1] % 128, Pow2(7 * (n - 1)));
    }
  }

  lemma ScaleGroup(g: nat, p: nat)
    ensures g * (128 * p) == 128 * (g * p)
  {
  }

  /** Any byte of the groups bounds their value from below. */
  lemma {:induction false} Base128AtLeast(s: Bytes, k: nat)
    requires k < |s|
    ensures Base128(s) >= (s[k] % 128) * Pow2(7 * k)
  {
    hide Pow2;
    var last := s[|s| - 1] % 128;
    MulLe(Pow2(7 * (|s| - 1)), 0, last);
    if k < |s| - 1 { Base128AtLeast(s[..|s| - 1], k); }
  }

  lemma {:induction false} EncodeLength(value: nat, k: nat)
    requires k >= 1 && value < Pow2(7 * k)
    ensures |Encode(value)| <= k
    decreases k
  {
    if value >= 128 {
      Pow2Add(7, 7 * (k - 1));
      SmallPowers();
      EncodeLength(value / 128, k - 1);
    }
  }

  /** Every 64-bit value survives encoding and decoding, whatever bytes follow, in at most ten bytes. */
  lemma {:induction false} VarintRoundTrip(value: nat, rest: Bytes)
    requires value < Pow2(U64_BITS)
    ensures Consume(Encode(value) + rest) == Ok((value, |Encode(value)|)) && |Encode(value)| <= 10
  {
    hide Pow2;
    var e := Encode(value);
    EncodeSpells(value);
    Pow2Monotone(U64_BITS, 7 * 10);
    EncodeLength(value, 10);
    var k := |e| - 1;
    assert forall i :: 0 <= i < k ==> (e + rest)[i] == e[i];
    ContinuedIs(e + rest, k);
    assert (e + rest)[..k + 1] == e;
    if k == 9 {
      TenthByte(value);
    }
  }

  lemma {:induction false} TenthByte(value: nat)
    requires value < Pow2(U64_BITS) && |Encode(value)| == 10
    ensures Encode(value)[9] <= 1
  {
    hide Pow2, Encode, Base128;
    var e := Encode(value);
    EncodeSpells(value);
    Base128AtLeast(e, 9);
    Pow2Add(1, 63);
    assert Pow2(1) == 2 by { SmallPowers(); }
    if e[9] >= 2 { MulLe(Pow2(63), 2, e[9]); }
  }

  /** Decoding never loses bits: an accepted varint is a 64-bit value, spelled by exactly the bytes consumed. */
  lemma {:induction false} ConsumeIsLossless(s: Bytes)
    requires Consume(s).Ok?
    ensures var (value, n) := Consume(s).value;
            && 1 <= n <= 10 && n <= |s| && value == Base128(s[..n]) < Pow2(U64_BITS)
            && s[n - 1] < 128 && (forall i :: 0 <= i < n - 1 ==> s[i] >= 128)
  {
    hide Pow2, Base128;
    var n := Consume(s).value.1;
    Consumed(s);
    hide Consume;
    GroupsInWord(s[..n]);
  }

  lemma {:induction false} Consumed(s: Bytes)
    requires Consume(s).Ok?
    ensures var (value, n) := Consume(s).value;
            && 1 <= n <= 10 && n <= |s| && value == Base128(s[..n])
            && s[n - 1] < 128 && (forall i :: 0 <= i < n - 1 ==> s[i] >= 128) && (n == 10 ==> s[9] <= 1)
  {
    hide Base128;
    var k := Continued(s);
    assert forall i :: 0 <= i < k ==> s[i] >= 128;
  }

  lemma {:induction false} GroupsInWord(s: Bytes)
    requires 1 <= |s| <= 10 && (|s| == 10 ==> s[9] <= 1)
    ensures Base128(s) < Pow2(U64_BITS)
  {
    hide Pow2;
    var n := |s|;
    Base128Below(s[..n - 1]);
    GroupInWord(s[n - 1] % 128, n - 1, Base128(s[..n - 1]));
  }

  lemma {:induction false} Base128Below(s: Bytes)
    ensures Base128(s) < Pow2(7 * |s|)
  {
    hide Pow2;
    assert Pow2(7) == 128 by { SmallPowers(); }
    if s != [] {
      Base128Below(s[..|s| - 1]);
      Pow2Add(7, 7 * (|s| - 1));
      GroupBelow(s[|s| - 1] % 128, Pow2(7 * (|s| - 1)), Base128(s[..|s| - 1]));
    }
  }

  // Envelopes: one repeated field 1 of length-delimited messages

  /** A message as the first field of a response. */
  function Envelope(body: Bytes): Bytes {
    Encode(10) + Encode(|body|) + body
  }

  /** The header of a response's first field: its tag, its declared length, and where the body starts. */
  function Header(s: Bytes): Result<(nat, nat, nat), PayloadError> {
    match Consume(s)
    case Err(error) => Err(error)
    case Ok((tag, t)) =>
      if t > |s| then Err(UnexpectedEof)
      else match Consume(s[t..])
        case Err(error) => Err(error)
        case Ok((length, n)) => Ok((tag, length, t + n))
  }

  /** The messages of a response, read as repeated length-delimited fields numbered 1. */
  function Decode(s: Bytes): Option<seq<Bytes>>
    decreases |s|
  {
    if s == [] then Some([])
    else
      match Header(s)
      case Err(_) => None
      case Ok((tag, length, h)) =>
        if tag != 10 || h == 0 || h + length > |s| then None
        else
          match Decode(s[h + length..])
          case None => None
          case Some(rest) => Some([s[h..h + length]] + rest)
  }

  /** What the rewriting of a unary response makes of it: a new header over the old body and the metadata. */
  function Rewritten(metadata: Bytes, response: Bytes): Result<Bytes, PayloadError> {
    match Header(response)
    case Err(error) => Err(error)
    case Ok((tag, _, h)) =>
      if tag != 10 then Err(UnexpectedFormat(tag))
      else if h > |response| then Err(UnexpectedSize(|response|))
      else Ok(Envelope(response[h..] + metadata))
  }

  method AppendMachineInfo(metadata: Option<Bytes>, streaming: bool, response: Bytes)
      returns (r: Result<Bytes, PayloadError>)
    ensures r == if metadata.None? then Err(InvalidMetadata)
                 else if streaming then Ok(response + metadata.value)
                 else Rewritten(metadata.value, response)
  {
    if metadata.None? {
      return Err(InvalidMetadata);
    }
    if streaming {
      return Ok(response + metadata.value);
    }
    var tag := ConsumeVarint(response);
    if tag.Err? {
      return Err(tag.error);
    }
    ConsumeWithin(response);
    var length := ConsumeVarint(response[tag.value.1..]);
    if length.Err? {
      return Err(length.error);
    }
    if tag.value.0 != 10 {
      return Err(UnexpectedFormat(tag.value.0));
    }
    if tag.value.1 + length.value.1 > |response| {
      return Err(UnexpectedSize(|response|));
    }
    var embedded := response[tag.value.1 + length.value.1..];
    var enhanced := EncodeVarint(10, []);
    enhanced := EncodeVarint(|embedded| + |metadata.value|, enhanced);
    r := Ok(enhanced + embedded + metadata.value);
    assert enhanced + embedded + metadata.value == enhanced + (embedded + metadata.value);
    assert [] + Encode(10) == Encode(10);
  }

  lemma {:induction false} ConsumeWithin(s: Bytes)
    ensures Consume(s).Ok? ==> 1 <= Consume(s).value.1 <= |s|
  {
  }

  /** One envelope in front of other bytes is read back as its body. */
  lemma {:induction false} EnvelopeHeader(body: Bytes, rest: Bytes)
    requires |body| < Pow2(U64_BITS)
    ensures var e := Envelope(body) + rest;
            && Header(e).Ok? && Header(e).value.0 == 10 && Header(e).value.1 == |body|
            && var h := Header(e).value.2;
               0 < h && h + |body| <= |e| && e[h..h + |body|] == body && e[h + |body|..] == rest
  {
    hide Pow2, Consume;
    var tag, length := Encode(10), Encode(|body|);
    var e := Envelope(body) + rest;
    assert 10 < Pow2(U64_BITS) by { Pow2Monotone(7, U64_BITS); SmallPowers(); }
    assert e == tag + (length + body + rest);
    VarintRoundTrip(10, length + body + rest);
    assert e[|tag|..] == length + (body + rest);
    VarintRoundTrip(|body|, body + rest);
    EncodeSpells(10);
  }

  function Envelopes(bodies: seq<Bytes>): seq<Bytes> {
    seq(|bodies|, i requires 0 <= i < |bodies| => Envelope(bodies[i]))
  }

  /** Concatenated envelopes decode to exactly the list of their bodies. */
  lemma {:induction false} ConcatenationDecodes(bodies: seq<Bytes>)
    requires forall i :: 0 <= i < |bodies| ==> |bodies[i]| < Pow2(U64_BITS)
    ensures Decode(Concat(Envelopes(bodies))) == Some(bodies)
  {
    hide Pow2, Header;
    if bodies != [] {
      ConcatenationDecodes(bodies[1..]);
      assert Envelopes(bodies)[1..] == Envelopes(bodies[1..]);
      EnvelopeHeader(bodies[0], Concat(Envelopes(bodies[1..])));
      assert bodies == [bodies[0]] + bodies[1..];
    }
  }

  /** Every accepted unary rewrite is one message, whose declared length is that of its body. */
  lemma {:induction false} RewrittenIsOneMessage(metadata: Bytes, response: Bytes)
    requires Rewritten(metadata, response).Ok? && |response| + |metadata| < Pow2(U64_BITS)
    ensures exists body :: Rewritten(metadata, response).value == Envelope(body + metadata)
                           && Decode(Rewritten(metadata, response).value) == Some([body + metadata])
                           && body == response[Header(response).value.2..]
  {
    hide Pow2, Header;
    var body := response[Header(response).value.2..];
    ConcatenationDecodes([body + metadata]);
    assert Envelopes([body + metadata]) == [Envelope(body + metadata)];
    assert Concat([Envelope(body + metadata)]) == Envelope(body + metadata);
  }

  /**
    * The rewrite takes everything after the first header for the message, whatever length that header declares.
    * So it keeps the response's message exactly when the header covers the rest of the response, that is,
    * when the response decodes to a single message.
    */
  lemma {:induction false} RewriteKeepsMessageIff(metadata: Bytes, response: Bytes)
    requires Rewritten(metadata, response).Ok?
    ensures (exists body ::
               Decode(response) == Some([body]) && Rewritten(metadata, response) == Ok(Envelope(body + metadata)))
            <==> Header(response).value.1 == |response| - Header(response).value.2
  {
    hide Header, Envelope;
    var (tag, length, h) := Header(response).value;
    HeaderIsNonEmpty(response);
    if length == |response| - h {
      assert response[h + length..] == [] && response[h..h + length] == response[h..];
      assert Decode(response[h + length..]) == Some([]) && [response[h..]] + [] == [response[h..]];
      assert Decode(response) == Some([response[h..]]);
    } else if h + length <= |response| {
      assert response[h + length..] != [];
      if Decode(response).Some? { DecodeOne(response[h + length..]); }
    }
  }

  /** Two empty messages become one: the second field's header turns into the content of the first. */
  lemma {:induction false} RewriteMergesMessages(metadata: Bytes)
    ensures var response: Bytes := [10, 0, 10, 0];
            && Decode(response) == Some([[], []])
            && Rewritten(metadata, response) == Ok(Envelope([10, 0] + metadata))
  {
    hide Consume, Envelope;
    var response: Bytes := [10, 0, 10, 0];
    OneByteVarint(response);
    OneByteVarint(response[1..]);
    assert response[2..] == [10, 0] && response[2..][1..] == [0];
    OneByteVarint(response[2..]);
    OneByteVarint(response[2..][1..]);
    assert Header(response) == Ok((10, 0, 2)) && Header(response[2..]) == Ok((10, 0, 2));
    var none: seq<Bytes>, one: seq<Bytes> := [], [[]];
    assert response[2..][2..] == [] && Decode([]) == Some(none);
    DecodeFirst(response[2..]);
    assert one + none == one && one + one == [[], []];
    DecodeFirst(response);
  }

  lemma {:induction false} DecodeFirst(s: Bytes)
    requires Header(s) == Ok((10, 0, 2)) && |s| >= 2
    ensures Decode(s) == match Decode(s[2..]) case None => None case Some(rest) => Some([[]] + rest)
  {
    hide Header;
    assert s[2..2] == [];
  }

  lemma {:induction false} OneByteVarint(s: Bytes)
    requires s != [] && s[0] < 128
    ensures Consume(s) == Ok((s[0], 1))
  {
    assert Pow2(0) == 1;
    assert s[..1] == [s[0]] && [s[0]][..0] == [];
    EmptyGroups();
  }

  lemma {:induction false} HeaderIsNonEmpty(s: Bytes)
    ensures Header(s).Ok? ==> s != [] && 2 <= Header(s).value.2 <= |s|
  {
    ConsumeWithin(s);
    if Consume(s).Ok? { ConsumeWithin(s[Consume(s).value.1..]); }
  }

  lemma {:induction false} DecodeOne(s: Bytes)
    requires s != [] && Decode(s).Some?
    ensures |Decode(s).value| >= 1
  {
  }
}
