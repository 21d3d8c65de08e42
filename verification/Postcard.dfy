/** The payload encoding of a protocol message, as the Postcard wire format lays it out: the variant
    number and lengths are variable-length integers ("Varint Encoded Integers"), an option is a tag
    byte, a byte string is its length followed by its bytes. */
module Postcard {
  import opened Options

  type byte = n: nat | n < 256

  type Bytes = seq<byte>

  datatype ProtoMessage = Sync(payload: Option<Bytes>)

  /** Seven bits per byte, least significant first; the top bit says that more follow. */
  function Varint(n: nat): Bytes {
    if n < 128 then [n] else [128 + n % 128] + Varint(n / 128)
  }

  function Encode(m: ProtoMessage): Bytes {
    match m.payload
    case None => [0, 0]
    case Some(bytes) => [0, 1] + Varint(|bytes|) + bytes
  }

  /** How many bytes an integer type may take, and the largest value of the last of them. */
  datatype Width = Width(bytes: nat, last: nat)

  const U32: Width := Width(5, 15)
  const U64: Width := Width(10, 1)

  datatype Taken<+T> = Bad | Taken(value: T, rest: Bytes)

  /** Reads byte number `i` and on of an integer. */
  function TakeVarint(bs: Bytes, i: nat, w: Width): Taken<nat>
    decreases |bs|
  {
    if bs == [] || i >= w.bytes then Bad
    else if bs[0] < 128 then
      if i == w.bytes - 1 && bs[0] > w.last then Bad else Taken(bs[0], bs[1..])
    else
      match TakeVarint(bs[1..], i + 1, w)
      case Bad => Bad
      case Taken(high, rest) => Taken(bs[0] - 128 + 128 * high, rest)
  }

  function TakePayload(bs: Bytes): Taken<Option<Bytes>> {
    if bs == [] then Bad
    else if bs[0] == 0 then Taken(None, bs[1..])
    else if bs[0] != 1 then Bad
    else
      match TakeVarint(bs[1..], 0, U64)
      case Bad => Bad
      case Taken(len, rest) => if |rest| < len then Bad else Taken(Some(rest[..len]), rest[len..])
  }

  /** `from_bytes`: what follows the message is ignored. */
  function Decode(bs: Bytes): Option<ProtoMessage> {
    match TakeVarint(bs, 0, U32)
    case Bad => None
    case Taken(variant, rest) =>
      if variant != 0 then None
      else
        match TakePayload(rest)
        case Bad => None
        case Taken(payload, _) => Some(Sync(payload))
  }

  /** The integers that fit into bytes `i` and on. */
  ghost function Fits(i: nat, w: Width): nat
    requires i < w.bytes
    decreases w.bytes - i
  {
    if i == w.bytes - 1 then w.last + 1 else 128 * Fits(i + 1, w)
  }

  lemma TakeMore(low: nat, tail: Bytes, i: nat, w: Width)
    requires low < 128 && i < w.bytes && TakeVarint(tail, i + 1, w).Taken?
    ensures
      var high := TakeVarint(tail, i + 1, w);
      TakeVarint([128 + low] + tail, i, w) == Taken(low + 128 * high.value, high.rest)
  {
    assert ([128 + low] + tail)[1..] == tail;
  }

  lemma {:induction false} VarintRoundTrip(n: nat, i: nat, w: Width, rest: Bytes)
    requires i < w.bytes && w.last < 128 && n < Fits(i, w)
    ensures TakeVarint(Varint(n) + rest, i, w) == Taken(n, rest)
    decreases n
  {
    if n < 128 {
      assert (Varint(n) + rest)[1..] == rest;
    } else {
      VarintRoundTrip(n / 128, i + 1, w, rest);
      TakeMore(n % 128, Varint(n / 128) + rest, i, w);
      assert Varint(n) + rest == [128 + n % 128] + (Varint(n / 128) + rest);
    }
  }

  lemma {:induction false} VarintLength(n: nat, i: nat, w: Width)
    requires i < w.bytes && w.last < 128 && n < Fits(i, w)
    ensures |Varint(n)| <= w.bytes - i
    decreases n
  {
    if n >= 128 {
      VarintLength(n / 128, i + 1, w);
    }
  }

  lemma WidthOfLength()
    ensures Fits(0, U64) == 0x1_0000_0000_0000_0000
  {
    assert Fits(9, U64) == 2;
    assert Fits(8, U64) == 2 * 0x80;
    assert Fits(7, U64) == 2 * 0x4000;
    assert Fits(6, U64) == 2 * 0x20_0000;
    assert Fits(5, U64) == 2 * 0x1000_0000;
    assert Fits(4, U64) == 2 * 0x8_0000_0000;
    assert Fits(3, U64) == 2 * 0x400_0000_0000;
    assert Fits(2, U64) == 2 * 0x2_0000_0000_0000;
    assert Fits(1, U64) == 2 * 0x100_0000_0000_0000;
  }

  lemma DecodeEmpty(after: Bytes)
    ensures Decode([0, 0] + after) == Some(Sync(None))
  {
    var bs := [0, 0] + after;
    assert TakeVarint(bs, 0, U32) == Taken(0, bs[1..]);
    assert bs[1..][0] == 0;
  }

  lemma TakeBytes(bytes: Bytes, after: Bytes)
    requires |bytes| < 0x1_0000_0000_0000_0000
    ensures TakePayload([1] + (Varint(|bytes|) + (bytes + after))) == Taken(Some(bytes), after)
  {
    var tail := bytes + after;
    var bs := [1] + (Varint(|bytes|) + tail);
    WidthOfLength();
    VarintRoundTrip(|bytes|, 0, U64, tail);
    assert bs[1..] == Varint(|bytes|) + tail;
    assert tail[..|bytes|] == bytes && tail[|bytes|..] == after;
  }

  lemma EncodedBytes(bytes: Bytes, after: Bytes)
    ensures Encode(Sync(Some(bytes))) + after == [0] + ([1] + (Varint(|bytes|) + (bytes + after)))
  {
    Regroup(Varint(|bytes|), bytes, after);
  }

  lemma Regroup(len: Bytes, bytes: Bytes, after: Bytes)
    ensures [0, 1] + len + bytes + after == [0] + ([1] + (len + (bytes + after)))
  {
    assert [0, 1] + len + bytes + after == [0, 1] + (len + (bytes + after));
  }

  lemma EncodedPart(bytes: Bytes, k: nat)
    requires k <= |Varint(|bytes|) + bytes|
    ensures |Encode(Sync(Some(bytes)))| == |Varint(|bytes|) + bytes| + 2
    ensures Encode(Sync(Some(bytes)))[..k + 2] == [0] + ([1] + (Varint(|bytes|) + bytes)[..k])
  {
  }

  lemma DecodeSome(rest: Bytes)
    requires TakePayload(rest).Taken?
    ensures Decode([0] + rest) == Some(Sync(TakePayload(rest).value))
  {
    var bs := [0] + rest;
    assert bs[1..] == rest;
    assert TakeVarint(bs, 0, U32) == Taken(0, bs[1..]);
  }

  /** Decoding gives back every message whose length fits a machine word, whatever follows it. */
  lemma DecodeEncode(m: ProtoMessage, after: Bytes)
    requires m.payload.Some? ==> |m.payload.value| < 0x1_0000_0000_0000_0000
    ensures Decode(Encode(m) + after) == Some(m)
  {
    match m.payload
    case None => DecodeEmpty(after);
    case Some(bytes) =>
      EncodedBytes(bytes, after);
      TakeBytes(bytes, after);
      DecodeSome([1] + (Varint(|bytes|) + (bytes + after)));
  }

  lemma {:induction false} TruncatedVarint(n: nat, k: nat, i: nat, w: Width)
    requires k < |Varint(n)|
    ensures TakeVarint(Varint(n)[..k], i, w) == Bad
    decreases n
  {
    if n >= 128 && k > 0 {
      TruncatedVarint(n / 128, k - 1, i + 1, w);
      assert Varint(n)[..k][1..] == Varint(n / 128)[..k - 1];
    }
  }

  lemma TruncatedBytes(bytes: Bytes, k: nat)
    requires |bytes| < 0x1_0000_0000_0000_0000 && k < |Varint(|bytes|) + bytes|
    ensures TakePayload([1] + (Varint(|bytes|) + bytes)[..k]) == Bad
  {
    var len, bs := Varint(|bytes|), [1] + (Varint(|bytes|) + bytes)[..k];
    assert bs[1..] == (len + bytes)[..k];
    if k < |len| {
      assert (len + bytes)[..k] == len[..k];
      TruncatedVarint(|bytes|, k, 0, U64);
    } else {
      assert (len + bytes)[..k] == len + bytes[..k - |len|];
      WidthOfLength();
      VarintRoundTrip(|bytes|, 0, U64, bytes[..k - |len|]);
    }
  }

  lemma DecodeNone(rest: Bytes)
    requires TakePayload(rest) == Bad
    ensures Decode([0] + rest) == None
  {
    var bs := [0] + rest;
    assert bs[1..] == rest;
    assert TakeVarint(bs, 0, U32) == Taken(0, bs[1..]);
  }

  /** A message that was cut short never decodes, not even to another message. */
  lemma TruncatedFails(m: ProtoMessage, k: nat)
    requires m.payload.Some? ==> |m.payload.value| < 0x1_0000_0000_0000_0000
    requires k < |Encode(m)|
    ensures Decode(Encode(m)[..k]) == None
  {
    if k == 1 {
      DecodeNone([]);
      assert Encode(m)[..k] == [0] + [];
    } else if k > 1 {
      var bytes := m.payload.value;
      EncodedPart(bytes, k - 2);
      TruncatedBytes(bytes, k - 2);
      DecodeNone([1] + (Varint(|bytes|) + bytes)[..k - 2]);
    }
  }

  // ----- exactly what decodes

  /** The number that seven bits of each byte make, least significant first. */
  ghost function Digits(bs: Bytes): nat {
    if bs == [] then 0 else bs[0] % 128 + 128 * Digits(bs[1..])
  }

  /** Bytes `i` and on of an encoded integer: the top bit is set in all of them but the last, and they
      fit the type. They need not be the fewest possible. */
  ghost predicate Encodes(enc: Bytes, n: nat, i: nat, w: Width) {
    && 0 < |enc| <= w.bytes - i && Digits(enc) == n
    && (forall k :: 0 <= k < |enc| - 1 ==> enc[k] >= 128)
    && enc[|enc| - 1] < 128 && (|enc| == w.bytes - i ==> enc[|enc| - 1] <= w.last)
  }

  lemma {:induction false} TakenEncodes(bs: Bytes, i: nat, w: Width) returns (enc: Bytes)
    requires TakeVarint(bs, i, w).Taken?
    ensures
      var t := TakeVarint(bs, i, w);
      bs == enc + t.rest && Encodes(enc, t.value, i, w)
    decreases |bs|
  {
    if bs[0] < 128 {
      enc := [bs[0]];
    } else {
      var more := TakenEncodes(bs[1..], i + 1, w);
      enc := [bs[0]] + more;
      EncodesMore(bs[0], more, TakeVarint(bs[1..], i + 1, w).value, i, w);
      assert bs == [bs[0]] + bs[1..];
    }
  }

  lemma EncodesMore(b: byte, more: Bytes, n: nat, i: nat, w: Width)
    requires b >= 128 && Encodes(more, n, i + 1, w)
    ensures Encodes([b] + more, b - 128 + 128 * n, i, w)
  {
    assert ([b] + more)[1..] == more;
  }

  lemma {:induction false} EncodedIsTaken(enc: Bytes, n: nat, i: nat, w: Width, rest: Bytes)
    requires Encodes(enc, n, i, w)
    ensures TakeVarint(enc + rest, i, w) == Taken(n, rest)
    decreases |enc|
  {
    assert (enc + rest)[1..] == enc[1..] + rest;
    if |enc| == 1 {
      assert enc[1..] + rest == rest;
      assert Digits(enc[1..]) == 0;
    } else {
      EncodedIsTaken(enc[1..], Digits(enc[1..]), i + 1, w, rest);
    }
  }

  /** Bytes that begin with an encoding of a message: the variant number 0, the tag of the option, and
      for a payload its length and its bytes. */
  ghost predicate Denotes(bs: Bytes, m: ProtoMessage) {
    exists variant, body :: bs == variant + body && Encodes(variant, 0, 0, U32) && Body(body, m.payload)
  }

  ghost predicate Body(bs: Bytes, payload: Option<Bytes>) {
    match payload
    case None => bs != [] && bs[0] == 0
    case Some(bytes) => exists len, after :: bs == [1] + len + bytes + after && Encodes(len, |bytes|, 0, U64)
  }

  lemma BodyTaken(bs: Bytes, payload: Option<Bytes>)
    requires Body(bs, payload)
    ensures TakePayload(bs).Taken? && TakePayload(bs).value == payload
  {
    if payload.Some? {
      var bytes := payload.value;
      var len, after :| bs == [1] + len + bytes + after && Encodes(len, |bytes|, 0, U64);
      assert bs[1..] == len + (bytes + after);
      EncodedIsTaken(len, |bytes|, 0, U64, bytes + after);
      assert (bytes + after)[..|bytes|] == bytes;
    }
  }

  lemma TakenBody(bs: Bytes)
    requires TakePayload(bs).Taken?
    ensures Body(bs, TakePayload(bs).value)
  {
    if bs[0] == 1 {
      var len := TakenEncodes(bs[1..], 0, U64);
      var t := TakeVarint(bs[1..], 0, U64);
      var bytes, after := t.rest[..t.value], t.rest[t.value..];
      assert t.rest == bytes + after;
      assert bs == [1] + bs[1..];
      assert bs == [1] + len + bytes + after;
    }
  }

  /** Exactly the bytes that begin with an encoding of a message decode to it. */
  lemma DecodeIff(bs: Bytes, m: ProtoMessage)
    ensures Decode(bs) == Some(m) <==> Denotes(bs, m)
  {
    if Decode(bs) == Some(m) {
      var variant := TakenEncodes(bs, 0, U32);
      TakenBody(TakeVarint(bs, 0, U32).rest);
    }
    if Denotes(bs, m) {
      var variant, body :| bs == variant + body && Encodes(variant, 0, 0, U32) && Body(body, m.payload);
      EncodedIsTaken(variant, 0, 0, U32, body);
      BodyTaken(body, m.payload);
    }
  }

  /** The widths are those of the integer types. */
  lemma WidthOfVariant()
    ensures Fits(0, U32) == 0x1_0000_0000
  {
    assert Fits(4, U32) == 16;
    assert Fits(3, U32) == 16 * 0x80;
    assert Fits(2, U32) == 16 * 0x4000;
    assert Fits(1, U32) == 16 * 0x20_0000;
  }
}
