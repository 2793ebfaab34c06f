/**
 The daemon's wire format: magic, command or status word, payload length, payload, the three
 words in big-endian order. The encoder fills a buffer; the reader consumes a stream.
 */
module IpcFrame {

  type byte = b: int | 0 <= b < 256
  type uint32 = w: int | 0 <= w < 0x1_0000_0000

  const MAGIC: uint32 := 0x43484e33
  const HEADER := 12
  const MAX_PAYLOAD := 64 * 1024 * 1024

  // ----- Words -----

  function Word(w: uint32): seq<byte> {
    [w / 256 / 256 / 256, w / 256 / 256 % 256, w / 256 % 256, w % 256]
  }

  function Append(high: int, low: byte): (n: int)
    ensures n / 256 == high && n % 256 == low
  {
    256 * high + low
  }

  function Value(b: seq<byte>): uint32
    requires |b| == 4
  {
    Append(Append(Append(b[0] as int, b[1]), b[2]), b[3])
  }

  lemma ValueOfWord(w: uint32)
    ensures Value(Word(w)) == w
  {
  }

  lemma WordOfValue(b: seq<byte>)
    requires |b| == 4
    ensures Word(Value(b)) == b
  {
  }

  /** The bytes of a word by powers of 256, the first byte highest. */
  lemma BigEndian(b: seq<byte>)
    requires |b| == 4
    ensures Value(b) == 16777216 * b[0] as int + 65536 * b[1] as int + 256 * b[2] as int + b[3] as int
  {
  }

  lemma WordIsBigEndian(w: uint32)
    ensures var b := Word(w);
            w == 16777216 * b[0] as int + 65536 * b[1] as int + 256 * b[2] as int + b[3] as int
  {
    ValueOfWord(w);
    BigEndian(Word(w));
  }

  /** `binary.BigEndian.PutUint32`. */
  method PutUint32(buffer: array<byte>, at: nat, w: uint32)
    requires at + 4 <= buffer.Length
    modifies buffer
    ensures buffer[at..at + 4] == Word(w)
    ensures forall i | 0 <= i < buffer.Length && !(at <= i < at + 4) :: buffer[i] == old(buffer[i])
  {
    buffer[at] := w / 256 / 256 / 256;
    buffer[at + 1] := w / 256 / 256 % 256;
    buffer[at + 2] := w / 256 % 256;
    buffer[at + 3] := w % 256;
  }

  // ----- The encoder -----

  /** The frame of a payload; its length word keeps only 32 bits. */
  function Encode(command: uint32, payload: seq<byte>): seq<byte> {
    Word(MAGIC) + Word(command) + Word(|payload| % 0x1_0000_0000) + payload
  }

  method EncodeRequest(command: uint32, payload: seq<byte>) returns (frame: array<byte>)
    ensures fresh(frame) && frame[..] == Encode(command, payload)
  {
    frame := new byte[HEADER + |payload|];
    PutUint32(frame, 0, MAGIC);
    PutUint32(frame, 4, command);
    PutUint32(frame, 8, |payload| % 0x1_0000_0000);
    var i := 0;
    while i < |payload|
      invariant 0 <= i <= |payload|
      invariant frame[0..4] == Word(MAGIC) && frame[4..8] == Word(command)
      invariant frame[8..12] == Word(|payload| % 0x1_0000_0000)
      invariant frame[HEADER..HEADER + i] == payload[..i]
    {
      frame[HEADER + i] := payload[i];
      i := i + 1;
    }
    hide Word;
    Reassemble(frame[..], |payload|);
    assert frame[..][0..4] == frame[0..4] && frame[..][4..8] == frame[4..8] && frame[..][8..12] == frame[8..12];
    assert frame[..][HEADER..][..|payload|] == frame[HEADER..HEADER + |payload|];
  }

  // ----- The reader -----

  datatype Failure = Eof | UnexpectedEof | BadMagic | TooLarge(length: int)
  datatype Reply = Message(status: uint32, text: seq<byte>) | Failed(failure: Failure)

  /** The reply read from a stream, and what is left of the stream. */
  datatype Reading = Reading(reply: Reply, rest: seq<byte>)

  function ShortRead(available: seq<byte>): Reading {
    Reading(Failed(if available == [] then Eof else UnexpectedEof), [])
  }

  function Decode(s: seq<byte>): Reading {
    if |s| < HEADER then ShortRead(s)
    else
      var body := s[HEADER..];
      var length := Value(s[8..12]);
      if Value(s[0..4]) != MAGIC then Reading(Failed(BadMagic), body)
      else if length > MAX_PAYLOAD then Reading(Failed(TooLarge(length)), body)
      else if |body| < length then ShortRead(body)
      else Reading(Message(Value(s[4..8]), body[..length]), body[length..])
  }

  /** The connection, as the bytes that will still arrive before the peer closes it. */
  class Connection {
    var incoming: seq<byte>

    constructor (bytes: seq<byte>)
      ensures incoming == bytes
    {
      incoming := bytes;
    }

    /** `io.ReadFull` into a buffer of n bytes. */
    method ReadFull(n: nat) returns (ok: bool, data: seq<byte>)
      modifies this
      ensures ok <==> |old(incoming)| >= n
      ensures ok ==> data == old(incoming)[..n] && incoming == old(incoming)[n..]
      ensures !ok ==> data == old(incoming) && incoming == []
    {
      if |incoming| >= n {
        ok, data, incoming := true, incoming[..n], incoming[n..];
      } else {
        ok, data, incoming := false, incoming, [];
      }
    }

    method ReadReply() returns (reply: Reply)
      modifies this
      ensures Reading(reply, incoming) == Decode(old(incoming))
    {
      hide Value;
      var ok, header := ReadFull(HEADER);
      if !ok { return Failed(if header == [] then Eof else UnexpectedEof); }
      assert header[0..4] == old(incoming)[0..4] && header[4..8] == old(incoming)[4..8] &&
             header[8..12] == old(incoming)[8..12];
      if Value(header[0..4]) != MAGIC { return Failed(BadMagic); }
      var status := Value(header[4..8]);
      var length := Value(header[8..12]);
      if length > MAX_PAYLOAD { return Failed(TooLarge(length)); }
      var whole, text := ReadFull(length);
      if !whole { return Failed(if text == [] then Eof else UnexpectedEof); }
      return Message(status, text);
    }
  }

  // ----- Round trips -----

  lemma EncodedParts(command: uint32, payload: seq<byte>, rest: seq<byte>)
    ensures var s := Encode(command, payload) + rest;
            && |s| == HEADER + |payload| + |rest|
            && s[HEADER..] == payload + rest
            && Value(s[0..4]) == MAGIC && Value(s[4..8]) == command
            && Value(s[8..12]) == |payload| % 0x1_0000_0000
  {
    var length := |payload| % 0x1_0000_0000;
    ValueOfWord(MAGIC);
    ValueOfWord(command);
    ValueOfWord(length);
    WordLengths();
    hide Value, Word;
    Slices(Word(MAGIC), Word(command), Word(length), payload, rest);
  }

  /** Three words and two more parts, taken apart. */
  lemma Slices(a: seq<byte>, b: seq<byte>, c: seq<byte>, p: seq<byte>, rest: seq<byte>)
    requires |a| == |b| == |c| == 4
    ensures var s := a + b + c + p + rest;
            && |s| == HEADER + |p| + |rest| && s[HEADER..] == p + rest
            && s[0..4] == a && s[4..8] == b && s[8..12] == c
  {
    var header := a + b + c;
    assert header[0..4] == a && header[4..8] == b && header[8..12] == c;
    var s := header + p + rest;
    assert s == header + (p + rest);
    assert s[..12] == header;
    assert s[0..4] == s[..12][0..4] && s[4..8] == s[..12][4..8] && s[8..12] == s[..12][8..12];
  }

  /** A long enough stream, put together again. */
  lemma Reassemble(s: seq<byte>, n: nat)
    requires HEADER + n <= |s|
    ensures s == s[0..4] + s[4..8] + s[8..12] + s[HEADER..][..n] + s[HEADER..][n..]
  {
    var body := s[HEADER..];
    assert body == body[..n] + body[n..];
    assert s[..12] == s[0..4] + s[4..8] + s[8..12];
    assert s == s[..12] + body;
  }

  /** The bytes on the wire: "CHN3", the command, the length and the payload. */
  lemma WireLayout(command: uint32, payload: seq<byte>)
    ensures var s := Encode(command, payload);
            && |s| == 12 + |payload|
            && s[0..4] == [0x43, 0x48, 0x4e, 0x33]
            && command == 16777216 * s[4] as int + 65536 * s[5] as int + 256 * s[6] as int + s[7] as int
            && |payload| % 0x1_0000_0000 == 16777216 * s[8] as int + 65536 * s[9] as int + 256 * s[10] as int + s[11] as int
            && s[12..] == payload
  {
    var length := |payload| % 0x1_0000_0000;
    WordIsBigEndian(command);
    WordIsBigEndian(length);
    assert Word(MAGIC) == [0x43, 0x48, 0x4e, 0x33];
    WordLengths();
    hide Word;
    Slices(Word(MAGIC), Word(command), Word(length), payload, []);
    var s := Encode(command, payload);
    assert s == Word(MAGIC) + Word(command) + Word(length) + payload + [];
    assert s[4..8][0] == s[4] && s[4..8][1] == s[5] && s[4..8][2] == s[6] && s[4..8][3] == s[7];
    assert s[8..12][0] == s[8] && s[8..12][1] == s[9] && s[8..12][2] == s[10] && s[8..12][3] == s[11];
  }

  lemma WordLengths()
    ensures forall w: uint32 :: |Word(w)| == 4
  {
  }

  /** A frame followed by anything is read back, and nothing more consumed, exactly when its
      payload is within the limit. */
  lemma RoundTripIff(command: uint32, payload: seq<byte>, rest: seq<byte>)
    ensures Decode(Encode(command, payload) + rest) == Reading(Message(command, payload), rest) <==>
            |payload| <= 67108864
  {
    EncodedParts(command, payload, rest);
    hide Encode, Value;
    var body := payload + rest;
    if |payload| <= MAX_PAYLOAD {
      assert body[..|payload|] == payload && body[|payload|..] == rest;
    } else {
      var length := |payload| % 0x1_0000_0000;
      if length <= MAX_PAYLOAD { assert |body[..length]| < |payload|; }
    }
  }

  lemma ReadParts(s: seq<byte>)
    requires Decode(s).reply.Message?
    ensures var r := Decode(s);
            && HEADER + |r.reply.text| <= |s| && |r.reply.text| <= MAX_PAYLOAD
            && Value(s[0..4]) == MAGIC && Value(s[4..8]) == r.reply.status && Value(s[8..12]) == |r.reply.text|
            && s[HEADER..][..|r.reply.text|] == r.reply.text && s[HEADER..][|r.reply.text|..] == r.rest
  {
    hide Value;
  }

  /** Only a frame reads as a message: whatever is read was encoded so, and lay in front. */
  lemma OnlyFramesAreRead(s: seq<byte>)
    requires Decode(s).reply.Message?
    ensures var r := Decode(s);
            |r.reply.text| <= MAX_PAYLOAD && s == Encode(r.reply.status, r.reply.text) + r.rest
  {
    hide Word, Value, Decode;
    ReadParts(s);
    var length := |Decode(s).reply.text|;
    WordOfValue(s[0..4]);
    WordOfValue(s[4..8]);
    WordOfValue(s[8..12]);
    assert length % 0x1_0000_0000 == length;
    Reassemble(s, length);
  }

  /** Which streams fail, and how: too short for a header, not begun by "CHN3", announcing more
      than 64 MiB, or too short for the payload announced. */
  lemma FailuresAre(s: seq<byte>)
    ensures var r := Decode(s).reply;
            && (|s| < 12 ==> r == Failed(if s == [] then Eof else UnexpectedEof))
            && (|s| >= 12 ==>
                  var n := 16777216 * s[8] as int + 65536 * s[9] as int + 256 * s[10] as int + s[11] as int;
                  var magic := s[0..4] == [0x43, 0x48, 0x4e, 0x33];
                  && (r == Failed(BadMagic) <==> !magic)
                  && (r == Failed(TooLarge(n)) <==> magic && n > 67108864)
                  && (r.Message? <==> magic && n <= 67108864 && |s| >= 12 + n)
                  && (magic && n <= 67108864 && |s| < 12 + n ==>
                        r == Failed(if |s| == 12 then Eof else UnexpectedEof)))
  {
    if |s| >= 12 {
      MagicBytes(s[0..4]);
      BigEndian(s[8..12]);
      assert s[8..12][0] == s[8] && s[8..12][1] == s[9] && s[8..12][2] == s[10] && s[8..12][3] == s[11];
      hide Value;
    }
  }

  lemma MagicBytes(b: seq<byte>)
    requires |b| == 4
    ensures Value(b) == MAGIC <==> b == [0x43, 0x48, 0x4e, 0x33]
  {
    WordOfValue(b);
    ValueOfWord(MAGIC);
  }

  /** A frame cut short anywhere reads as a short read, never as another message. */
  lemma CutFrameIsShort(command: uint32, payload: seq<byte>, n: nat)
    requires |payload| <= MAX_PAYLOAD && n < HEADER + |payload|
    ensures |Encode(command, payload)| == HEADER + |payload|
    ensures Decode(Encode(command, payload)[..n]).reply in {Failed(Eof), Failed(UnexpectedEof)}
  {
    EncodedParts(command, payload, []);
    hide Value, Encode;
    var whole := Encode(command, payload);
    assert whole + [] == whole;
    var s := whole[..n];
    if n >= HEADER {
      assert s[0..4] == whole[0..4] && s[8..12] == whole[8..12];
    }
  }

  // ----- Streams of frames -----

  predicate Sendable(m: Reply) { m.Message? && |m.text| <= MAX_PAYLOAD }

  predicate AllSendable(ms: seq<Reply>) { forall i | 0 <= i < |ms| :: Sendable(ms[i]) }

  function EncodeAll(ms: seq<Reply>): seq<byte>
    requires AllSendable(ms)
  {
    if ms == [] then [] else Encode(ms[0].status, ms[0].text) + EncodeAll(ms[1..])
  }

  datatype Listing = Whole(messages: seq<Reply>) | Damaged(messages: seq<Reply>, failure: Failure)

  /** Reading until the stream is used up or a reply fails. */
  function DecodeAll(s: seq<byte>): Listing
    decreases |s|
  {
    if s == [] then Whole([])
    else
      var r := Decode(s);
      if r.reply.Failed? then Damaged([], r.reply.failure)
      else
        match DecodeAll(r.rest)
        case Whole(ms) => Whole([r.reply] + ms)
        case Damaged(ms, f) => Damaged([r.reply] + ms, f)
  }

  /** A sequence of frames reads as exactly the messages sent. */
  lemma {:induction false} StreamRoundTrip(ms: seq<Reply>)
    requires AllSendable(ms)
    ensures DecodeAll(EncodeAll(ms)) == Whole(ms)
  {
    if ms != [] {
      var m, rest := ms[0], EncodeAll(ms[1..]);
      StreamRoundTrip(ms[1..]);
      RoundTripIff(m.status, m.text, rest);
      EncodedParts(m.status, m.text, rest);
      hide Encode, Decode;
      assert [m] + ms[1..] == ms;
    }
  }

  /** A stream read without damage is the frames of the messages read. */
  lemma {:induction false} StreamIsItsFrames(s: seq<byte>)
    requires DecodeAll(s).Whole?
    ensures AllSendable(DecodeAll(s).messages) && EncodeAll(DecodeAll(s).messages) == s
    decreases |s|
  {
    if s != [] {
      var r := Decode(s);
      OnlyFramesAreRead(s);
      StreamIsItsFrames(r.rest);
      hide Encode;
      var ms := DecodeAll(s).messages;
      assert ms[1..] == DecodeAll(r.rest).messages;
    }
  }

  /** Two different lists of messages never make the same stream. */
  lemma StreamsAreUnique(a: seq<Reply>, b: seq<Reply>)
    requires AllSendable(a) && AllSendable(b)
    ensures EncodeAll(a) == EncodeAll(b) <==> a == b
  {
    StreamRoundTrip(a);
    StreamRoundTrip(b);
  }
}
