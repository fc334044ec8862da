/** The bytes of a packet: a message header, the server's pod information on the way
    back, and padding. The header codec is a parameter with a fixed length. */
module Framing {
  import opened Common

  type Byte = b: int | 0 <= b < 256

  type Int64 = x: int | -0x8000_0000_0000_0000 <= x < 0x8000_0000_0000_0000

  const PADDING: Byte := 0xff

  datatype Message = Message(
    sequenceNumber: Int64,
    sendTimeStamp: Int64,
    respondTimeStamp: Int64,
    serverInfoLength: Int64,
    length: Int64
  )

  function NewMessage(number: Int64, stamp: Int64, packetSize: Int64): Message {
    Message(number, stamp, 0, 0, packetSize)
  }

  datatype Codec = Codec(headerLength: nat, encode: Message -> seq<Byte>, decode: seq<Byte> -> Option<Message>)

  /** Every header has the same length, and decoding inverts encoding. */
  ghost predicate Lawful(codec: Codec) {
    forall m: Message :: |codec.encode(m)| == codec.headerLength && codec.decode(codec.encode(m)) == Some(m)
  }

  // ---------------------------------------------------------------------
  // Buffers

  /** A buffer after bytes are copied into it from a position on, as far as they fit. */
  function Overwrite(buffer: seq<Byte>, at: nat, bytes: seq<Byte>): (r: seq<Byte>)
    requires at <= |buffer|
    ensures |r| == |buffer|
  {
    var n := Min(|bytes|, |buffer| - at);
    buffer[..at] + bytes[..n] + buffer[at + n..]
  }

  /** Copied bytes stand from the position on; all else stays. */
  lemma OverwriteAt(buffer: seq<Byte>, at: nat, bytes: seq<Byte>, k: nat)
    requires at <= |buffer| && k < |buffer|
    ensures Overwrite(buffer, at, bytes)[k] == if at <= k < at + |bytes| then bytes[k - at] else buffer[k]
  {
  }

  method Copy(buffer: array<Byte>, at: nat, bytes: seq<Byte>)
    requires at <= buffer.Length
    modifies buffer
    ensures buffer[..] == Overwrite(old(buffer[..]), at, bytes)
  {
    var n := Min(|bytes|, buffer.Length - at);
    for i := 0 to n
      invariant forall k :: 0 <= k < buffer.Length ==>
                  buffer[k] == if at <= k < at + i then bytes[k - at] else old(buffer[k])
    {
      buffer[at + i] := bytes[i];
    }
  }

  /** The padding behind the header. */
  method GetPaddingPayload(size: nat) returns (payload: array<Byte>)
    ensures fresh(payload) && payload.Length == size
    ensures forall k :: 0 <= k < size ==> payload[k] == 0xff
  {
    payload := new Byte[size];
    for i := 0 to size
      invariant forall k :: 0 <= k < i ==> payload[k] == PADDING
    {
      payload[i] := PADDING;
    }
  }

  // ---------------------------------------------------------------------
  // The client's packets

  /** Padding brings a packet to its configured size; a size below the header's is
      replaced. */
  function PayloadSize(packetSize: int, headerLength: nat): nat {
    if packetSize - headerLength < 0 then headerLength + 1 else packetSize - headerLength
  }

  /** Builds the buffer every packet of the stream is sent from. */
  method BaseBuffer(codec: Codec, packetSize: Int64) returns (base: array<Byte>)
    requires Lawful(codec)
    ensures fresh(base)
    ensures base.Length == if packetSize >= codec.headerLength then packetSize else 2 * codec.headerLength + 1
    ensures codec.decode(base[..codec.headerLength]) == Some(Message(0, 0, 0, 0, packetSize))
    ensures forall k :: codec.headerLength <= k < base.Length ==> base[k] == 0xff
  {
    var header := codec.encode(NewMessage(0, 0, packetSize));
    var payload := GetPaddingPayload(PayloadSize(packetSize, codec.headerLength));
    base := new Byte[codec.headerLength + payload.Length];
    Copy(base, 0, header);
    Copy(base, codec.headerLength, payload[..]);
    assert base[..codec.headerLength] == header;
  }

  /** Puts the next message into the buffer; the padding stays. */
  method Frame(codec: Codec, base: array<Byte>, msg: Message)
    requires Lawful(codec) && codec.headerLength <= base.Length
    modifies base
    ensures base[..] == codec.encode(msg) + old(base[codec.headerLength..])
  {
    Copy(base, 0, codec.encode(msg));
  }

  // ---------------------------------------------------------------------
  // The server's echo

  datatype Reply =
    | Ignored
    | Undecodable
    | OutOfRange
    | Reply(bytes: seq<Byte>)

  /** How long the reply to a message is. */
  function ReplyLength(codec: Codec, msg: Message, info: seq<Byte>): int {
    Max(msg.length, codec.headerLength + |info|)
  }

  predicate Fits(info: seq<Byte>) {
    |info| < 0x8000_0000_0000_0000
  }

  function Answer(msg: Message, info: seq<Byte>, now: Int64): Message
    requires Fits(info)
  {
    msg.(respondTimeStamp := now, serverInfoLength := |info|)
  }

  /** The reply to a decoded message. */
  function Answered(codec: Codec, buffer: seq<Byte>, msg: Message, info: seq<Byte>, now: Int64): Reply
    requires Fits(info)
  {
    var head := codec.encode(Answer(msg, info, now)) + info;
    if ReplyLength(codec, msg, info) > |buffer| || |head| > ReplyLength(codec, msg, info) then OutOfRange
    else Reply(head + buffer[|head|..ReplyLength(codec, msg, info)])
  }

  /** The reply as a function of the receive buffer. */
  function Echoed(codec: Codec, buffer: seq<Byte>, size: nat, info: seq<Byte>, now: Int64): Reply
    requires codec.headerLength <= |buffer| && Fits(info)
  {
    if size == 0 then Ignored
    else
      match codec.decode(buffer[..codec.headerLength])
      case None => Undecodable
      case Some(msg) => Answered(codec, buffer, msg, info, now)
  }

  /** What becomes of any received packet, and of nothing: it is ignored when empty, given
      up when its header cannot be decoded or the reply would not fit into the buffer,
      and else answered with its header, the server's time and information, and what
      lay behind them in the buffer. */
  lemma EchoOutcomes(codec: Codec, buffer: seq<Byte>, size: nat, info: seq<Byte>, now: Int64)
    requires Lawful(codec) && codec.headerLength <= |buffer| && Fits(info)
    ensures var r, decoded := Echoed(codec, buffer, size, info, now), codec.decode(buffer[..codec.headerLength]);
            var behind := codec.headerLength + |info|;
            && (r.Ignored? <==> size == 0)
            && (r.Undecodable? <==> size > 0 && decoded.None?)
            && (r.OutOfRange? <==>
                  size > 0 && decoded.Some? && (decoded.value.length > |buffer| || behind > |buffer|))
            && (r.Reply? ==>
                  && |r.bytes| == (if decoded.value.length < behind then behind else decoded.value.length)
                  && codec.decode(r.bytes[..codec.headerLength])
                     == Some(Message(decoded.value.sequenceNumber, decoded.value.sendTimeStamp, now, |info|,
                                     decoded.value.length))
                  && r.bytes[codec.headerLength..behind] == info
                  && r.bytes[behind..] == buffer[behind..|r.bytes|])
  {
    var decoded := codec.decode(buffer[..codec.headerLength]);
    if size > 0 && decoded.Some? {
      var answer := Answer(decoded.value, info, now);
      var header := codec.encode(answer);
      assert |header| == codec.headerLength && codec.decode(header) == Some(answer);
      var r := Echoed(codec, buffer, size, info, now);
      if r.Reply? {
        assert r.bytes[..codec.headerLength] == header;
        assert r.bytes[codec.headerLength..codec.headerLength + |info|] == info;
      }
    }
  }

  /** Header and information written one behind the other, where the reply fits. */
  lemma WrittenBehind(buffer: seq<Byte>, header: seq<Byte>, info: seq<Byte>, length: nat)
    requires |header| + |info| <= length <= |buffer|
    ensures Overwrite(Overwrite(buffer, 0, header), |header|, info)[..length]
            == header + info + buffer[|header| + |info|..length]
  {
  }

  /** Writes the reply to a decoded message over it. */
  method Respond(codec: Codec, buffer: array<Byte>, received: Message, info: seq<Byte>, now: Int64) returns (r: Reply)
    requires Lawful(codec) && codec.headerLength <= buffer.Length && Fits(info)
    modifies buffer
    ensures r == Answered(codec, old(buffer[..]), received, info, now)
  {
    ghost var was := buffer[..];
    var msg := Answer(received, info, now);
    var header := codec.encode(msg);
    Copy(buffer, 0, header);
    Copy(buffer, |header|, info);
    var pktLength := |header| + |info|;
    var length: int := msg.length;
    if length < pktLength {
      length := pktLength;
    }
    if length > buffer.Length {
      return OutOfRange;
    }
    WrittenBehind(was, header, info, length);
    assert buffer[..length] == buffer[..][..length];
    r := Reply(buffer[..length]);
  }

  /** Turns a received packet into its reply, inside the receive buffer. */
  method Echo(codec: Codec, buffer: array<Byte>, size: nat, info: seq<Byte>, now: Int64) returns (r: Reply)
    requires Lawful(codec) && codec.headerLength <= buffer.Length && Fits(info)
    modifies buffer
    ensures r == Echoed(codec, old(buffer[..]), size, info, now)
    ensures r.Ignored? || r.Undecodable? ==> buffer[..] == old(buffer[..])
  {
    if size == 0 {
      return Ignored;
    }
    assert buffer[..codec.headerLength] == buffer[..][..codec.headerLength];
    var decoded := codec.decode(buffer[..codec.headerLength]);
    if decoded.None? {
      return Undecodable;
    }
    r := Respond(codec, buffer, decoded.value, info, now);
  }

  // ---------------------------------------------------------------------
  // The client's reading

  datatype Reading =
    | Nothing
    | Malformed
    | BadSlice
    | Reading(msg: Message, info: seq<Byte>)

  /** What the client takes out of its receive buffer: the header, and the bytes it
      says hold the server's information. */
  function ReadOut(codec: Codec, buffer: seq<Byte>, size: nat): Reading
    requires codec.headerLength <= |buffer|
  {
    if size == 0 then Nothing
    else
      match codec.decode(buffer[..codec.headerLength])
      case None => Malformed
      case Some(msg) =>
        var end := codec.headerLength + msg.serverInfoLength;
        if codec.headerLength <= end <= |buffer| then Reading(msg, buffer[codec.headerLength..end]) else BadSlice
  }

  /** What the client makes of any received bytes. */
  lemma ReadOutcomes(codec: Codec, buffer: seq<Byte>, size: nat)
    requires codec.headerLength <= |buffer|
    ensures var r, decoded := ReadOut(codec, buffer, size), codec.decode(buffer[..codec.headerLength]);
            && (r.Nothing? <==> size == 0)
            && (r.Malformed? <==> size > 0 && decoded.None?)
            && (r.Reading? <==>
                  && size > 0 && decoded.Some?
                  && 0 <= decoded.value.serverInfoLength <= |buffer| - codec.headerLength)
            && (r.Reading? ==>
                  && r.msg == decoded.value && |r.info| == r.msg.serverInfoLength
                  && r.info == buffer[codec.headerLength..codec.headerLength + |r.info|])
  {
  }

  /** A datagram received into a buffer; what does not fit is lost. */
  function Received(buffer: seq<Byte>, datagram: seq<Byte>): seq<Byte> {
    Overwrite(buffer, 0, datagram)
  }

  lemma ReceivedAt(buffer: seq<Byte>, datagram: seq<Byte>, k: nat)
    requires k < |buffer|
    ensures |Received(buffer, datagram)| == |buffer|
    ensures Received(buffer, datagram)[k] == if k < |datagram| then datagram[k] else buffer[k]
  {
  }

  /** There and back, for every lawful codec, message, padding, server information
      and whatever the two buffers held before. The server answers exactly when its
      buffer holds the reply; then the reply is max(Length, H + |info|) bytes long,
      and the client reads the sequence number and send time it sent, the server's
      time, and as the server's information exactly the server's bytes. */
  lemma RoundTrip(codec: Codec, msg: Message, padding: seq<Byte>, info: seq<Byte>, now: Int64,
                  serverBuffer: seq<Byte>, clientBuffer: seq<Byte>)
    requires Lawful(codec) && Fits(info) && codec.headerLength > 0
    requires codec.headerLength <= |serverBuffer|
    requires ReplyLength(codec, msg, info) <= |clientBuffer|
    ensures var packet := codec.encode(msg) + padding;
            var r := Echoed(codec, Received(serverBuffer, packet), |packet|, info, now);
            if ReplyLength(codec, msg, info) > |serverBuffer| then r == OutOfRange
            else
              && r.Reply?
              && |r.bytes| == ReplyLength(codec, msg, info)
              && r.bytes[codec.headerLength + |info|..]
                 == Received(serverBuffer, packet)[codec.headerLength + |info|..|r.bytes|]
              && ReadOut(codec, Received(clientBuffer, r.bytes), |r.bytes|)
                 == Reading(msg.(respondTimeStamp := now, serverInfoLength := |info|), info)
  {
    var h, packet := codec.headerLength, codec.encode(msg) + padding;
    var b := Received(serverBuffer, packet);
    assert b[..h] == codec.encode(msg);
    var answer := Answer(msg, info, now);
    assert |codec.encode(answer)| == h;
    if ReplyLength(codec, msg, info) <= |serverBuffer| {
      var bytes := Echoed(codec, b, |packet|, info, now).bytes;
      var c := Received(clientBuffer, bytes);
      assert bytes[..h] == codec.encode(answer) && bytes[h..h + |info|] == info;
      assert c[..h] == bytes[..h] && c[h..h + |info|] == bytes[h..h + |info|];
    }
  }
}
