/** Length-prefixed messages on a byte stream that arrives in chunks of any size. */
module Framing {
  import opened Options
  import opened Postcard

  const U32_LIMIT: nat := 0x1_0000_0000

  /** The last `k` base-256 digits of a number, most significant first. */
  function BigEndian(n: nat, k: nat): (bs: Bytes)
    ensures |bs| == k
  {
    if k == 0 then [] else BigEndian(n / 256, k - 1) + [n % 256]
  }

  function Value(bs: Bytes): nat {
    if bs == [] then 0 else Value(bs[..|bs| - 1]) * 256 + bs[|bs| - 1]
  }

  /** What `write_message` puts on the stream; the length is cut to 32 bits, as `as u32`
      does, and written big-endian. */
  function Frame(m: ProtoMessage): Bytes {
    BigEndian(|Encode(m)| % U32_LIMIT, 4) + Encode(m)
  }

  function Frames(ms: seq<ProtoMessage>): Bytes {
    if ms == [] then [] else Frame(ms[0]) + Frames(ms[1..])
  }

  predicate Writable(m: ProtoMessage, max: nat) {
    |Encode(m)| < max
  }

  datatype LpResult = EndOfStream | TooLarge | Data(data: Bytes) | Panicked

  /** The outcome of reading, the bytes taken off the stream, and the buffer left. */
  datatype Read<R> = Read(result: R, consumed: nat, buffer: Bytes)

  /** `read_lp` on a stream that still holds `rest`. A stream that ends inside the prefix reads as
      the end; one that ends inside the body runs into `split_to` with too few bytes. */
  function ReadLpSpec(rest: Bytes, buffer: Bytes, max: nat): Read<LpResult> {
    if |rest| < 4 then Read(EndOfStream, |rest|, buffer)
    else
      var size := Value(rest[..4]);
      if size > max then Read(TooLarge, 4, buffer)
      else
        var taken := if size <= |rest| - 4 then size else |rest| - 4;
        var filled := buffer + rest[4..4 + taken];
        if |filled| < size then Read(Panicked, 4 + taken, filled)
        else Read(Data(filled[..size]), 4 + taken, filled[size..])
  }

  datatype MsgResult = NoMessage | Message(msg: ProtoMessage) | ReadTooLarge | BadMessage | ReadPanicked

  function Interpret(r: LpResult): MsgResult {
    match r
    case EndOfStream => NoMessage
    case TooLarge => ReadTooLarge
    case Panicked => ReadPanicked
    case Data(data) => if Decode(data).Some? then Message(Decode(data).value) else BadMessage
  }

  function ReadMessageSpec(rest: Bytes, buffer: Bytes, max: nat): Read<MsgResult> {
    var r := ReadLpSpec(rest, buffer, max);
    Read(Interpret(r.result), r.consumed, r.buffer)
  }

  /** The receive loop: messages up to the first result that is not one, which is returned too. */
  function ReceiveSpec(rest: Bytes, buffer: Bytes, max: nat): (seq<ProtoMessage>, Read<MsgResult>)
    decreases |rest|
  {
    var r := ReadMessageSpec(rest, buffer, max);
    if r.result.Message? then
      var more := ReceiveSpec(rest[r.consumed..], r.buffer, max);
      ([r.result.msg] + more.0, more.1)
    else ([], r)
  }

  // ----- round trip

  function Pow256(k: nat): nat {
    if k == 0 then 1 else 256 * Pow256(k - 1)
  }

  lemma {:induction false} ValueBigEndian(n: nat, k: nat)
    requires n < Pow256(k)
    ensures Value(BigEndian(n, k)) == n
  {
    if k > 0 {
      ValueBigEndian(n / 256, k - 1);
      assert BigEndian(n, k)[..k - 1] == BigEndian(n / 256, k - 1);
    }
  }

  lemma U32RoundTrip(n: nat)
    requires n < U32_LIMIT
    ensures Value(BigEndian(n, 4)) == n
  {
    assert Pow256(2) == 0x1_0000;
    assert Pow256(4) == U32_LIMIT;
    ValueBigEndian(n, 4);
  }

  lemma PrefixedBody(prefix: Bytes, body: Bytes, after: Bytes, max: nat)
    requires |prefix| == 4 && Value(prefix) == |body| <= max
    ensures ReadLpSpec(prefix + body + after, [], max) == Read(Data(body), 4 + |body|, [])
  {
    var stream := prefix + body + after;
    assert stream[..4] == prefix;
    assert [] + stream[4..4 + |body|] == body;
    assert body[..|body|] == body;
  }

  lemma ReadBack(m: ProtoMessage, stream: Bytes, prefix: Bytes, after: Bytes, max: nat)
    requires |prefix| == 4 && Value(prefix) == |Encode(m)| <= max < 0x1_0000_0000_0000_0000
    requires stream == prefix + Encode(m) + after
    ensures ReadMessageSpec(stream, [], max) == Read(Message(m), 4 + |Encode(m)|, [])
  {
    PrefixedBody(prefix, Encode(m), after, max);
    DecodeEncode(m, []);
    assert Encode(m) + [] == Encode(m);
  }

  lemma UncutFrame(m: ProtoMessage)
    requires |Encode(m)| < U32_LIMIT
    ensures Frame(m) == BigEndian(|Encode(m)|, 4) + Encode(m)
  {
    Uncut(|Encode(m)|);
  }

  lemma Uncut(n: nat)
    requires n < U32_LIMIT
    ensures n % U32_LIMIT == n
  {
  }

  /** A frame is read back whole, and leaves the buffer empty. */
  lemma FrameRoundTrip(m: ProtoMessage, after: Bytes, max: nat)
    requires Writable(m, max) && max <= U32_LIMIT
    ensures ReadMessageSpec(Frame(m) + after, [], max) == Read(Message(m), |Frame(m)|, [])
  {
    UncutFrame(m);
    U32RoundTrip(|Encode(m)|);
    ReadBack(m, Frame(m) + after, BigEndian(|Encode(m)|, 4), after, max);
  }

  /** A frame the writer accepts carries its message exactly if the length was not cut. */
  lemma FrameSurvivesIff(m: ProtoMessage, after: Bytes, max: nat)
    requires Writable(m, max)
    ensures ReadLpSpec(Frame(m) + after, [], max).result == Data(Encode(m)) <==> |Encode(m)| < U32_LIMIT
  {
    var cut := |Encode(m)| % U32_LIMIT;
    U32RoundTrip(cut);
    CutBody(BigEndian(cut, 4), Encode(m), cut, after, max);
  }

  /** What becomes of the message of an accepted frame: it is read back exactly if its length fits 32
      bits, and fails to decode otherwise. */
  lemma MessageSurvivesIff(m: ProtoMessage, after: Bytes, max: nat)
    requires Writable(m, max) && |Encode(m)| < 0x1_0000_0000_0000_0000
    ensures ReadMessageSpec(Frame(m) + after, [], max).result
         == if |Encode(m)| < U32_LIMIT then Message(m) else BadMessage
  {
    var cut := |Encode(m)| % U32_LIMIT;
    U32RoundTrip(cut);
    CutBody(BigEndian(cut, 4), Encode(m), cut, after, max);
    DecodeCut(m, cut);
  }

  lemma DecodeCut(m: ProtoMessage, cut: nat)
    requires |Encode(m)| < 0x1_0000_0000_0000_0000 && cut == |Encode(m)| % U32_LIMIT
    ensures Decode(Encode(m)[..cut]) == if |Encode(m)| < U32_LIMIT then Some(m) else None
  {
    if |Encode(m)| < U32_LIMIT {
      Uncut(|Encode(m)|);
      assert Encode(m)[..cut] == Encode(m) + [];
      DecodeEncode(m, []);
    } else {
      TruncatedFails(m, cut);
    }
  }

  /** A payload of 2^32 bytes is written without an error and cannot be read. */
  lemma FourGigabytes(max: nat) returns (m: ProtoMessage)
    requires max > U32_LIMIT + 12
    ensures m.payload.Some? && |m.payload.value| == U32_LIMIT
    ensures Writable(m, max) && ReadMessageSpec(Frame(m), [], max).result == BadMessage
  {
    var bytes: Bytes := seq(U32_LIMIT, _ => 0);
    m := Sync(Some(bytes));
    WidthOfLength();
    VarintLength(U32_LIMIT, 0, U64);
    assert Encode(m) == [0, 1] + Varint(U32_LIMIT) + bytes;
    MessageSurvivesIff(m, [], max);
    assert Frame(m) + [] == Frame(m);
  }

  lemma CutBody(prefix: Bytes, body: Bytes, cut: nat, after: Bytes, max: nat)
    requires |prefix| == 4 && Value(prefix) == cut <= |body| <= max
    ensures ReadLpSpec(prefix + body + after, [], max).result == Data(body[..cut])
  {
    var head, tail := body[..cut], body[cut..];
    assert body == head + tail;
    assert prefix + (head + tail) + after == prefix + head + (tail + after);
    PrefixedBody(prefix, head, tail + after, max);
  }

  /** Everything the writer accepts is received: exactly the messages written, in order, then the end
      of the stream, with nothing left in the buffer. */
  lemma {:induction false} FramingRoundTrip(ms: seq<ProtoMessage>, max: nat)
    requires max <= U32_LIMIT && forall i :: 0 <= i < |ms| ==> Writable(ms[i], max)
    ensures ReceiveSpec(Frames(ms), [], max) == (ms, Read(NoMessage, 0, []))
  {
    if ms != [] {
      FrameRoundTrip(ms[0], Frames(ms[1..]), max);
      assert Frames(ms)[|Frame(ms[0])|..] == Frames(ms[1..]);
      FramingRoundTrip(ms[1..], max);
      assert [ms[0]] + ms[1..] == ms;
    }
  }

  lemma ReceiveOne(m: ProtoMessage, more: Bytes, max: nat)
    requires max <= U32_LIMIT && Writable(m, max)
    ensures
      var all, later := ReceiveSpec(Frame(m) + more, [], max), ReceiveSpec(more, [], max);
      all == ([m] + later.0, later.1)
  {
    FrameRoundTrip(m, more, max);
    assert (Frame(m) + more)[|Frame(m)|..] == more;
  }

  /** Whatever follows the frames the writer accepted, their messages are received first, and then the
      rest as if nothing had come before. */
  lemma {:induction false} ReceivesFirst(ms: seq<ProtoMessage>, tail: Bytes, max: nat)
    requires max <= U32_LIMIT && forall i :: 0 <= i < |ms| ==> Writable(ms[i], max)
    ensures
      var all, later := ReceiveSpec(Frames(ms) + tail, [], max), ReceiveSpec(tail, [], max);
      all.0 == ms + later.0 && all.1 == later.1
  {
    if ms == [] {
      assert Frames(ms) + tail == tail;
    } else {
      ReceivesFirst(ms[1..], tail, max);
      ReceiveOne(ms[0], Frames(ms[1..]) + tail, max);
      Associate(Frame(ms[0]), Frames(ms[1..]), tail);
      HeadAndTail(ms, ReceiveSpec(tail, [], max).0);
    }
  }

  lemma HeadAndTail<T>(s: seq<T>, t: seq<T>)
    requires s != []
    ensures [s[0]] + (s[1..] + t) == s + t
  {
  }

  /** A prefix above the maximum ends the receive loop with an error, after the messages before it. */
  lemma TooLargeEnds(ms: seq<ProtoMessage>, prefix: Bytes, after: Bytes, max: nat)
    requires max <= U32_LIMIT && forall i :: 0 <= i < |ms| ==> Writable(ms[i], max)
    requires |prefix| == 4 && Value(prefix) > max
    ensures
      var all := ReceiveSpec(Frames(ms) + (prefix + after), [], max);
      all.0 == ms && all.1 == Read(ReadTooLarge, 4, [])
  {
    assert (prefix + after)[..4] == prefix;
    assert ReadLpSpec(prefix + after, [], max) == Read(TooLarge, 4, []);
    ReceivesFirst(ms, prefix + after, max);
    assert ms + [] == ms;
  }

  /** A stream that ends inside a prefix ends the loop as if it had ended before it; one that ends
      inside a body is fatal. */
  lemma CutEnds(ms: seq<ProtoMessage>, tail: Bytes, max: nat)
    requires max <= U32_LIMIT && forall i :: 0 <= i < |ms| ==> Writable(ms[i], max)
    requires |tail| < 4 || |tail| - 4 < Value(tail[..4]) <= max
    ensures
      var all := ReceiveSpec(Frames(ms) + tail, [], max);
      all.0 == ms && all.1.result == if |tail| < 4 then NoMessage else ReadPanicked
  {
    ReceivesFirst(ms, tail, max);
    LpCases(tail, [], max);
    assert ms + [] == ms;
  }

  lemma {:induction false} FramesSnoc(ms: seq<ProtoMessage>, m: ProtoMessage)
    ensures Frames(ms + [m]) == Frames(ms) + Frame(m)
  {
    if ms == [] {
      assert Frames([m]) == Frame(m) + Frames([]);
    } else {
      FramesSnoc(ms[1..], m);
      assert (ms + [m])[1..] == ms[1..] + [m];
      Associate(Frame(ms[0]), Frames(ms[1..]), Frame(m));
    }
  }

  function Verdicts(ms: seq<ProtoMessage>, max: nat): seq<bool> {
    seq(|ms|, i requires 0 <= i < |ms| => Writable(ms[i], max))
  }

  /** The first position from `i` on that is false, or the end. */
  function FirstFalse(oks: seq<bool>, i: nat): nat
    requires i <= |oks|
    decreases |oks| - i
  {
    if i == |oks| || !oks[i] then i else FirstFalse(oks, i + 1)
  }

  lemma {:induction false} FirstFalseIsFirst(oks: seq<bool>, i: nat)
    requires i <= |oks|
    ensures
      var n := FirstFalse(oks, i);
      && i <= n <= |oks| && (forall k :: i <= k < n ==> oks[k]) && (n < |oks| ==> !oks[n])
    decreases |oks| - i
  {
    if i < |oks| && oks[i] {
      FirstFalseIsFirst(oks, i + 1);
    }
  }

  lemma WrittenPart(ms: seq<ProtoMessage>, max: nat, n: nat)
    requires n <= |ms| && forall k :: 0 <= k < n ==> Verdicts(ms, max)[k]
    ensures forall k :: 0 <= k < n ==> Writable(ms[k], max)
  {
    forall k | 0 <= k < n
      ensures Writable(ms[k], max)
    {
      assert Verdicts(ms, max)[k];
    }
  }

  /** What the send loop writes is what the receive loop delivers. */
  lemma SentIsReceived(ms: seq<ProtoMessage>, max: nat, n: nat)
    requires max <= U32_LIMIT && n == FirstFalse(Verdicts(ms, max), 0)
    ensures n <= |ms| && ReceiveSpec(Frames(ms[..n]), [], max) == (ms[..n], Read(NoMessage, 0, []))
    ensures forall k :: 0 <= k < n ==> Writable(ms[k], max)
    ensures n < |ms| ==> !Writable(ms[n], max)
  {
    FirstFalseIsFirst(Verdicts(ms, max), 0);
    WrittenPart(ms, max, n);
    FramingRoundTrip(ms[..n], max);
  }

  lemma TakeOneMore<T>(s: seq<T>, t: seq<T>, n: nat)
    requires n < |t|
    ensures s + t[..n] + [t[n]] == s + t[..n + 1]
  {
  }

  lemma Associate(a: Bytes, b: Bytes, c: Bytes)
    ensures a + b + c == a + (b + c)
  {
  }

  lemma PartAfter(bs: Bytes, i: nat, n: nat)
    requires i + n <= |bs|
    ensures bs[i..][..n] == bs[i..i + n] && bs[i..][n..] == bs[i + n..]
  {
  }

  /** Four bytes are a number with the most significant byte first. */
  lemma ValueOfFour(a: byte, b: byte, c: byte, d: byte)
    ensures Value([a, b, c, d]) == a * 0x100_0000 + b * 0x1_0000 + c * 0x100 + d
  {
    assert [a, b, c, d][..3] == [a, b, c] && [a, b, c][..2] == [a, b] && [a, b][..1] == [a];
    assert Value([a]) == Value([a][..0]) * 256 + a;
    assert Value([a, b]) == a * 0x100 + b;
    assert Value([a, b, c]) == a * 0x1_0000 + b * 0x100 + c;
  }

  /** What became of a read: the prefix says how long the body is, a longer one than the maximum is
      refused, and a body that has not come whole is fatal. */
  ghost predicate LpOutcome(rest: Bytes, buffer: Bytes, max: nat, r: LpResult, left: Bytes, after: Bytes) {
    if |rest| < 4 then r.EndOfStream? && left == buffer && after == []
    else
      var size, have := Value(rest[..4]), |buffer| + |rest| - 4;
      && (r.TooLarge? <==> size > max)
      && (r.TooLarge? ==> left == buffer && after == rest[4..])
      && (r.Data? <==> size <= max && size <= have)
      && (r.Data? ==> |r.data| == size && r.data + left + after == buffer + rest[4..])
      && (r.Data? && buffer == [] ==> r.data == rest[4..4 + size] && left == [])
      && (r.Panicked? <==> have < size <= max)
  }

  lemma LpCases(rest: Bytes, buffer: Bytes, max: nat)
    ensures
      var spec := ReadLpSpec(rest, buffer, max);
      spec.consumed <= |rest| && LpOutcome(rest, buffer, max, spec.result, spec.buffer, rest[spec.consumed..])
  {
    var spec := ReadLpSpec(rest, buffer, max);
    if |rest| >= 4 && Value(rest[..4]) <= max {
      var size := Value(rest[..4]);
      var taken := if size <= |rest| - 4 then size else |rest| - 4;
      var filled := buffer + rest[4..4 + taken];
      if |filled| >= size {
        SplitBack(buffer, rest, taken, size);
        assert buffer == [] ==> filled == rest[4..4 + size] && filled[..size] == filled;
      }
    }
  }

  lemma SplitBack(buffer: Bytes, rest: Bytes, taken: nat, size: nat)
    requires 4 + taken <= |rest| && size <= |buffer| + taken
    ensures
      var filled := buffer + rest[4..4 + taken];
      filled[..size] + filled[size..] + rest[4 + taken..] == buffer + rest[4..]
  {
    var filled := buffer + rest[4..4 + taken];
    assert filled[..size] + filled[size..] == filled;
    assert rest[4..4 + taken] + rest[4 + taken..] == rest[4..];
  }

  lemma MessageConsumes(rest: Bytes, buffer: Bytes, max: nat)
    ensures
      var r := ReadMessageSpec(rest, buffer, max);
      r.consumed <= |rest| && (r.result.Message? ==> r.consumed >= 4)
  {
  }

  lemma PutInFront<T>(s: seq<T>, x: T, t: seq<T>)
    ensures s + ([x] + t) == s + [x] + t
  {
  }

  /** One turn of the receive loop. */
  lemma ReceiveTurn(ms: seq<ProtoMessage>, rest: Bytes, buffer: Bytes, max: nat)
    ensures
      var r, all := ReadMessageSpec(rest, buffer, max), ReceiveSpec(rest, buffer, max);
      if r.result.Message? then
        var more := ReceiveSpec(rest[r.consumed..], r.buffer, max);
        |rest[r.consumed..]| < |rest| && ms + all.0 == ms + [r.result.msg] + more.0 && all.1 == more.1
      else ms + all.0 == ms && all.1 == r
  {
    MessageConsumes(rest, buffer, max);
    var r := ReadMessageSpec(rest, buffer, max);
    if r.result.Message? {
      PutInFront(ms, r.result.msg, ReceiveSpec(rest[r.consumed..], r.buffer, max).0);
    }
  }

  // ----- the operations

  datatype WriteResult = Written | WriteTooLarge

  /** The sending end of a stream; `sent` are the messages written to it so far. */
  class Writer {
    var out: Bytes
    ghost var sent: seq<ProtoMessage>

    ghost predicate Valid()
      reads this
    {
      out == Frames(sent)
    }

    constructor ()
      ensures Valid() && out == [] && sent == []
    {
      out, sent := [], [];
    }

    method WriteMessage(m: ProtoMessage, max: nat) returns (r: WriteResult)
      requires Valid()
      modifies this
      ensures Valid() && (r.Written? <==> |Encode(m)| < max)
      ensures sent == if r.Written? then old(sent) + [m] else old(sent)
      ensures out == if r.Written? then old(out) + Frame(m) else old(out)
    {
      var len := |Encode(m)|;
      if len >= max {
        return WriteTooLarge;
      }
      var buffer := Encode(m);
      var prefix := BigEndian(len % U32_LIMIT, 4);
      Associate(out, prefix, buffer);
      FramesSnoc(sent, m);
      out := out + prefix;
      out := out + buffer;
      sent := sent + [m];
      r := Written;
    }

    /** The send loop of an established connection: it ends at the first message that is refused, after
        `n` that were written. */
    method SendAll(ms: seq<ProtoMessage>, max: nat) returns (n: nat)
      requires Valid()
      modifies this
      ensures n <= |ms| && n == FirstFalse(Verdicts(ms, max), 0)
      ensures Valid() && sent == old(sent) + ms[..n]
    {
      ghost var verdicts := Verdicts(ms, max);
      n := 0;
      while n < |ms|
        invariant n <= |ms| && FirstFalse(verdicts, n) == FirstFalse(verdicts, 0)
        invariant Valid() && sent == old(sent) + ms[..n]
      {
        TakeOneMore(old(sent), ms, n);
        var r := WriteMessage(ms[n], max);
        if r.WriteTooLarge? {
          break;
        }
        n := n + 1;
      }
    }
  }

  /** A stream whose bytes arrive in chunks nobody controls. */
  class Reader {
    const stream: Bytes
    var pos: nat

    ghost predicate Valid()
      reads this
    {
      pos <= |stream|
    }

    ghost function Rest(): Bytes
      requires Valid()
      reads this
    {
      stream[pos..]
    }

    constructor (stream: Bytes)
      ensures Valid() && this.stream == stream && Rest() == stream
    {
      this.stream := stream;
      pos := 0;
    }

    /** Some of the next `room` bytes; none exactly at the end of the stream, or without room. */
    method ReadSome(room: nat) returns (chunk: Bytes)
      requires Valid()
      modifies this
      ensures Valid() && |chunk| <= room && chunk + Rest() == old(Rest())
      ensures chunk == [] <==> room == 0 || old(Rest()) == []
      ensures |Rest()| == |old(Rest())| - |chunk|
    {
      if room == 0 || pos == |stream| {
        return [];
      }
      var bound := if room <= |stream| - pos then room else |stream| - pos;
      var n :| 1 <= n <= bound;
      chunk := stream[pos..pos + n];
      pos := pos + n;
    }

    /** Reads until `room` bytes have come or the stream ends. */
    method Fill(buffer: Bytes, room: nat) returns (filled: Bytes)
      requires Valid()
      modifies this
      ensures Valid()
      ensures
        var taken := if room <= |old(Rest())| then room else |old(Rest())|;
        filled == buffer + old(Rest())[..taken] && Rest() == old(Rest())[taken..]
    {
      filled := buffer;
      var left: nat := room;
      ghost var got: Bytes := [];
      while true
        invariant Valid() && filled == buffer + got && got + Rest() == old(Rest())
        invariant |got| + left == room
        decreases left, |Rest()|
      {
        var chunk := ReadSome(left);
        if chunk == [] {
          break;
        }
        filled := filled + chunk;
        left := left - |chunk|;
        got := got + chunk;
      }
      assert old(Rest())[..|got|] == got && old(Rest())[|got|..] == Rest();
    }

    method ReadLp(buffer: Bytes, max: nat) returns (r: LpResult, left: Bytes)
      requires Valid()
      modifies this
      ensures Valid()
      ensures
        var spec := ReadLpSpec(old(Rest()), buffer, max);
        r == spec.result && left == spec.buffer && Rest() == old(Rest())[spec.consumed..]
      ensures LpOutcome(old(Rest()), buffer, max, r, left, Rest())
      ensures r.Data? ==> |r.data| <= max
    {
      ghost var before := Rest();
      LpCases(before, buffer, max);
      var prefix := Fill([], 4);
      if |prefix| < 4 {
        return EndOfStream, buffer;
      }
      assert prefix == before[..4];
      var size := Value(prefix);
      if size > max {
        return TooLarge, buffer;
      }
      ghost var after := Rest();
      var filled := Fill(buffer, size);
      ghost var taken := if size <= |after| then size else |after|;
      PartAfter(before, 4, taken);
      if |filled| < size {
        return Panicked, filled;
      }
      r, left := Data(filled[..size]), filled[size..];
    }

    method ReadMessage(buffer: Bytes, max: nat) returns (r: MsgResult, left: Bytes)
      requires Valid()
      modifies this
      ensures Valid()
      ensures
        var spec := ReadMessageSpec(old(Rest()), buffer, max);
        r == spec.result && left == spec.buffer && Rest() == old(Rest())[spec.consumed..]
      ensures r.NoMessage? <==> |old(Rest())| < 4
      ensures r.ReadTooLarge? <==> |old(Rest())| >= 4 && Value(old(Rest())[..4]) > max
      ensures r.Message? && buffer == [] ==>
        var size := Value(old(Rest())[..4]);
        size <= |old(Rest())| - 4 && Decode(old(Rest())[4..4 + size]) == Some(r.msg) && left == []
    {
      var lp;
      lp, left := ReadLp(buffer, max);
      r := Interpret(lp);
    }

    /** The receive loop of an established connection. */
    method ReceiveAll(max: nat) returns (ms: seq<ProtoMessage>, end: MsgResult, left: Bytes)
      requires Valid()
      modifies this
      ensures Valid()
      ensures
        var spec := ReceiveSpec(old(Rest()), [], max);
        ms == spec.0 && end == spec.1.result && left == spec.1.buffer
    {
      ms, left := [], [];
      ghost var all := ReceiveSpec(Rest(), [], max);
      assert [] + all.0 == all.0;
      while true
        invariant Valid()
        invariant all.0 == ms + ReceiveSpec(Rest(), left, max).0
        invariant all.1 == ReceiveSpec(Rest(), left, max).1
        decreases |Rest()|
      {
        ReceiveTurn(ms, Rest(), left, max);
        var r, next := ReadMessage(left, max);
        left := next;
        if !r.Message? {
          end := r;
          return;
        }
        ms := ms + [r.msg];
      }
    }
  }

  /** From the send loop of one peer to the receive loop of the other, however the bytes are chunked:
      the messages before the first one that is too large arrive, in order, then the end. */
  method Transfer(ms: seq<ProtoMessage>, max: nat)
    returns (n: nat, received: seq<ProtoMessage>, end: MsgResult, left: Bytes)
    requires max <= U32_LIMIT
    ensures n <= |ms| && received == ms[..n] && end == NoMessage && left == []
    ensures forall i :: 0 <= i < n ==> Writable(ms[i], max)
    ensures n < |ms| ==> !Writable(ms[n], max)
  {
    var writer := new Writer();
    n := writer.SendAll(ms, max);
    SentIsReceived(ms, max, n);
    assert writer.sent == ms[..n];
    var reader := new Reader(writer.out);
    received, end, left := reader.ReceiveAll(max);
  }
}
