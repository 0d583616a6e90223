/**
 * The peer wire protocol as the client speaks it: the 68-byte handshake,
 * length-prefixed messages, the two messages the client sends (interested
 * and request), how a received message changes what the client knows about
 * the remote peer, and the peer's bitfield of pieces.
 */
module PeerWire {
  import opened Binary

  /** `b"BitTorrent protocol"` */
  const PSTR: seq<Byte> := [66, 105, 116, 84, 111, 114, 114, 101, 110, 116, 32, 112, 114, 111, 116, 111, 99, 111, 108]
  const HANDSHAKE_LENGTH: nat := 68

  // message ids
  const CHOKE: Byte := 0
  const UNCHOKE: Byte := 1
  const INTERESTED: Byte := 2
  const NOT_INTERESTED: Byte := 3
  const HAVE: Byte := 4
  const BITFIELD: Byte := 5
  const REQUEST: Byte := 6
  const PIECE: Byte := 7

  function Zeros(n: nat): (r: seq<Byte>)
    ensures |r| == n && forall k | 0 <= k < n :: r[k] == 0
  {
    seq(n, k => 0)
  }

  // ---------------------------------------------------------------------
  // Handshake
  // ---------------------------------------------------------------------

  /** The handshake the client writes: pstrlen, pstr, eight reserved zero bytes, info hash, peer id. */
  function HandshakeMessage(infoHash: seq<Byte>, peerId: seq<Byte>): seq<Byte>
  {
    [|PSTR| as Byte] + PSTR + Zeros(8) + infoHash + peerId
  }

  /**
   * The checks made on the 68 bytes read back: the protocol string and the
   * info hash must match; the reserved bytes and the peer id are not looked at.
   */
  predicate HandshakeAccepted(response: seq<Byte>, infoHash: seq<Byte>)
    requires |response| == HANDSHAKE_LENGTH
  {
    response[0] == 19 && response[1..20] == PSTR && response[28..48] == infoHash
  }

  /**
   * With a 20-byte info hash and peer id the handshake is 68 bytes laid out
   * as the protocol prescribes, and a peer that echoes it is accepted.
   */
  lemma HandshakeLayout(infoHash: seq<Byte>, peerId: seq<Byte>)
    requires |infoHash| == 20 && |peerId| == 20
    ensures var msg := HandshakeMessage(infoHash, peerId);
      |msg| == HANDSHAKE_LENGTH && msg[20..28] == Zeros(8) && msg[48..] == peerId
      && HandshakeAccepted(msg, infoHash)
  {
    var msg := HandshakeMessage(infoHash, peerId);
    assert msg[1..20] == PSTR;
    assert msg[20..28] == Zeros(8);
    assert msg[28..48] == infoHash;
    assert msg[48..] == peerId;
  }

  /** A peer answering for a different torrent is rejected. */
  lemma HandshakeOtherTorrent(infoHash: seq<Byte>, other: seq<Byte>, peerId: seq<Byte>)
    requires |infoHash| == 20 && |other| == 20 && |peerId| == 20 && other != infoHash
    ensures |HandshakeMessage(other, peerId)| == HANDSHAKE_LENGTH
    ensures !HandshakeAccepted(HandshakeMessage(other, peerId), infoHash)
  {
    var msg := HandshakeMessage(other, peerId);
    assert msg[28..48] == other;
  }

  /** Acceptance depends on bytes 0-19 and 28-47 only. */
  lemma HandshakeIgnoresReservedAndPeerId(r1: seq<Byte>, r2: seq<Byte>, infoHash: seq<Byte>)
    requires |r1| == HANDSHAKE_LENGTH && |r2| == HANDSHAKE_LENGTH
    requires r1[..20] == r2[..20] && r1[28..48] == r2[28..48]
    ensures HandshakeAccepted(r1, infoHash) == HandshakeAccepted(r2, infoHash)
  {
    assert r1[0] == r1[..20][0] && r2[0] == r2[..20][0];
    assert r1[1..20] == r1[..20][1..] && r2[1..20] == r2[..20][1..];
  }

  // ---------------------------------------------------------------------
  // Length-prefixed messages
  // ---------------------------------------------------------------------

  /** A message on the wire: four-byte big-endian length of id and payload, the id, the payload. */
  function Frame(id: Byte, payload: seq<Byte>): (r: seq<Byte>)
    requires |payload| < U32_LIMIT - 1
    ensures |r| == 5 + |payload|
  {
    BigEndian32(1 + |payload|) + [id] + payload
  }

  const KEEP_ALIVE: seq<Byte> := [0, 0, 0, 0]

  /** `struct.pack(">IB", 1, 2)` is the interested message, with no payload. */
  function InterestedFrame(): (r: seq<Byte>)
    ensures r == Frame(INTERESTED, [])
  {
    assert BigEndian32(1) == [0, 0, 0, 1] by {
      BigEndian32Inverse([0, 0, 0, 1]);
    }
    [0, 0, 0, 1, INTERESTED]
  }

  /** `struct.pack(">IBIII", 13, 6, index, begin, length)`: a request message with three 32-bit fields. */
  function RequestFrame(index: nat, begin: nat, length: nat): (r: seq<Byte>)
    requires index < U32_LIMIT && begin < U32_LIMIT && length < U32_LIMIT
    ensures |r| == 17
    ensures r == Frame(REQUEST, BigEndian32(index) + BigEndian32(begin) + BigEndian32(length))
  {
    BigEndian32(13) + [REQUEST] + BigEndian32(index) + BigEndian32(begin) + BigEndian32(length)
  }

  /** What a received message is: nothing (keep-alive, timeout, closed connection) or an id and a payload. */
  datatype Incoming = NoMessage | Message(id: Byte, payload: seq<Byte>)

  /**
   * `receive_message` on a connection whose remaining bytes are `stream`:
   * the message read and the bytes still unread. A connection that closes
   * part-way through a message yields no message and has nothing left.
   */
  function ReadFrame(stream: seq<Byte>): (r: (Incoming, seq<Byte>))
    ensures |r.1| <= |stream| && (r.1 == [] || r.1 == stream[|stream| - |r.1|..])
    ensures stream != [] ==> |r.1| < |stream|
    ensures r.0.Message? ==> stream != []
  {
    if |stream| < 4 then (NoMessage, [])
    else
      var length := FromBigEndian(stream[..4]);
      if length == 0 then (NoMessage, stream[4..])
      else if |stream| - 4 < length then (NoMessage, [])
      else (Message(stream[4], stream[5..4 + length]), stream[4 + length..])
  }

  /** A message is read exactly when the stream starts with a whole frame: that frame, then the rest. */
  lemma ReadFrameMessage(stream: seq<Byte>)
    ensures var (m, rest) := ReadFrame(stream);
      m.Message? ==> |m.payload| < U32_LIMIT - 1 && stream == Frame(m.id, m.payload) + rest
  {
    var (m, rest) := ReadFrame(stream);
    if m.Message? {
      var length := FromBigEndian(stream[..4]);
      BigEndian32Inverse(stream[..4]);
      assert stream == stream[..4] + [stream[4]] + stream[5..4 + length] + stream[4 + length..];
    }
  }

  /** Reading a frame back gives its id and payload, and leaves what followed it. */
  lemma ReadFrameOfFrame(id: Byte, payload: seq<Byte>, rest: seq<Byte>)
    requires |payload| < U32_LIMIT - 1
    ensures ReadFrame(Frame(id, payload) + rest) == (Message(id, payload), rest)
  {
    var stream := Frame(id, payload) + rest;
    assert stream[..4] == BigEndian32(1 + |payload|);
    assert stream[4] == id;
    assert stream[5..5 + |payload|] == payload;
    assert stream[5 + |payload|..] == rest;
  }

  /** A keep-alive is consumed and yields no message. */
  lemma ReadKeepAlive(rest: seq<Byte>)
    ensures ReadFrame(KEEP_ALIVE + rest) == (NoMessage, rest)
  {
    var stream := KEEP_ALIVE + rest;
    assert stream[..4] == KEEP_ALIVE;
    assert KEEP_ALIVE[..3] == [0, 0, 0] && [0, 0, 0][..2] == [0, 0] && [0, 0][..1] == [0];
    assert FromBigEndian(KEEP_ALIVE) == 0;
  }

  /** The three fields of a request read back as written. */
  lemma ReadRequestFrame(index: nat, begin: nat, length: nat, rest: seq<Byte>)
    requires index < U32_LIMIT && begin < U32_LIMIT && length < U32_LIMIT
    ensures var (m, after) := ReadFrame(RequestFrame(index, begin, length) + rest);
      after == rest && m.Message? && m.id == REQUEST && |m.payload| == 12
      && FromBigEndian(m.payload[..4]) == index
      && FromBigEndian(m.payload[4..8]) == begin
      && FromBigEndian(m.payload[8..]) == length
  {
    var payload := BigEndian32(index) + BigEndian32(begin) + BigEndian32(length);
    ReadFrameOfFrame(REQUEST, payload, rest);
    assert payload[..4] == BigEndian32(index);
    assert payload[4..8] == BigEndian32(begin);
    assert payload[8..] == BigEndian32(length);
  }

  // ---------------------------------------------------------------------
  // Handling a received message
  // ---------------------------------------------------------------------

  /** What the client tracks about the remote peer. */
  datatype PeerFlags = PeerFlags(peerChoking: bool, peerInterested: bool, bitfield: Option<seq<Byte>>)

  /**
   * What `handle_message` hands back: nothing, a received block, or
   * `Malformed` for the `struct.error` it raises on a `have` payload that is
   * not four bytes or a `piece` payload shorter than eight.
   */
  datatype Event = NoEvent | Block(index: nat, begin: nat, block: seq<Byte>) | Malformed

  /** `handle_message`: the peer's new flags and what is handed back. */
  function Handle(f: PeerFlags, m: Incoming): (PeerFlags, Event)
  {
    match m
    case NoMessage => (f, NoEvent)
    case Message(id, payload) =>
      if id == CHOKE then (f.(peerChoking := true), NoEvent)
      else if id == UNCHOKE then (f.(peerChoking := false), NoEvent)
      else if id == INTERESTED then (f.(peerInterested := true), NoEvent)
      else if id == NOT_INTERESTED then (f.(peerInterested := false), NoEvent)
      else if id == HAVE then (f, if |payload| == 4 then NoEvent else Malformed)
      else if id == BITFIELD then (f.(bitfield := Some(payload)), NoEvent)
      else if id == PIECE then
        (f, if |payload| < 8 then Malformed
            else Block(FromBigEndian(payload[..4]), FromBigEndian(payload[4..8]), payload[8..]))
      else (f, NoEvent)
  }

  /** The piece message a peer sends for a block. */
  function PieceFrame(index: nat, begin: nat, block: seq<Byte>): (r: seq<Byte>)
    requires index < U32_LIMIT && begin < U32_LIMIT && |block| < U32_LIMIT - 9
    ensures |r| == 13 + |block|
  {
    Frame(PIECE, BigEndian32(index) + BigEndian32(begin) + block)
  }

  /** Receiving a piece message hands back exactly the block that was sent, flags untouched. */
  lemma ReceivePieceFrame(f: PeerFlags, index: nat, begin: nat, block: seq<Byte>, rest: seq<Byte>)
    requires index < U32_LIMIT && begin < U32_LIMIT && |block| < U32_LIMIT - 9
    ensures var (m, after) := ReadFrame(PieceFrame(index, begin, block) + rest);
      after == rest && Handle(f, m) == (f, Block(index, begin, block))
  {
    var payload := BigEndian32(index) + BigEndian32(begin) + block;
    ReadFrameOfFrame(PIECE, payload, rest);
    assert payload[..4] == BigEndian32(index);
    assert payload[4..8] == BigEndian32(begin);
    assert payload[8..] == block;
  }

  /** `handle_message` raises exactly on a short `have` or `piece` payload. */
  lemma HandleMalformed(f: PeerFlags, m: Incoming)
    ensures Handle(f, m).1 == Malformed <==>
      m.Message? && ((m.id == HAVE && |m.payload| != 4) || (m.id == PIECE && |m.payload| < 8))
  {
  }

  /**
   * Each flag is changed only by its own messages: choking by choke and
   * unchoke, interest by interested and not-interested, the bitfield by a
   * bitfield message (which it then holds); blocks come only from piece messages.
   */
  lemma HandleTouches(f: PeerFlags, m: Incoming)
    ensures var (g, e) := Handle(f, m);
      (g.peerChoking != f.peerChoking ==> m.Message? && (m.id == CHOKE || m.id == UNCHOKE))
      && (g.peerInterested != f.peerInterested ==> m.Message? && (m.id == INTERESTED || m.id == NOT_INTERESTED))
      && (g.bitfield != f.bitfield ==> m.Message? && m.id == BITFIELD && g.bitfield == Some(m.payload))
      && (e.Block? ==> m.Message? && m.id == PIECE && |m.payload| == 8 + |e.block|)
  {
  }

  // ---------------------------------------------------------------------
  // Bitfield
  // ---------------------------------------------------------------------

  /** `b >> k` on a non-negative integer: k halvings, rounding down. */
  function ShiftRight(b: nat, k: nat): nat
  {
    if k == 0 then b else ShiftRight(b / 2, k - 1)
  }

  /** `has_piece`: bit `index` of the bitfield, counting from the most significant bit of byte 0. */
  predicate HasPiece(bitfield: Option<seq<Byte>>, index: nat)
  {
    match bitfield
    case None => false
    case Some(bits) => index / 8 < |bits| && ShiftRight(bits[index / 8], 7 - index % 8) % 2 == 1
  }

  /** The value of a run of bits, most significant first. */
  function BitsValue(bs: seq<bool>): (v: nat)
    ensures v < Pow2(|bs|)
  {
    if bs == [] then 0 else 2 * BitsValue(bs[..|bs| - 1]) + (if bs[|bs| - 1] then 1 else 0)
  }

  /** Bits 8j to 8j+7 of `have`, padded with false past its end. */
  function Octet(have: seq<bool>, j: nat): (bs: seq<bool>)
    ensures |bs| == 8
    ensures forall t | 0 <= t < 8 :: bs[t] == (8 * j + t < |have| && have[8 * j + t])
  {
    seq(8, t requires 0 <= t < 8 => 8 * j + t < |have| && have[8 * j + t])
  }

  /** The bitfield a peer holding the pieces marked in `have` sends: eight pieces a byte, zero-padded. */
  function PackBits(have: seq<bool>): (r: seq<Byte>)
    ensures |r| == (|have| + 7) / 8
  {
    assert Pow2(8) == 256;
    seq((|have| + 7) / 8, j requires 0 <= j => BitsValue(Octet(have, j)) as Byte)
  }

  /** Bit t of a run of n bits is found by shifting right by n-1-t and masking. */
  lemma {:induction false} BitOf(bs: seq<bool>, t: nat)
    requires t < |bs|
    ensures ShiftRight(BitsValue(bs), |bs| - 1 - t) % 2 == if bs[t] then 1 else 0
  {
    var n := |bs|;
    if t < n - 1 {
      var init := bs[..n - 1];
      BitOf(init, t);
      assert init[t] == bs[t];
      assert BitsValue(bs) / 2 == BitsValue(init);
    }
  }

  /** `has_piece` reads back exactly the pieces packed into the bitfield. */
  lemma HasPieceOfPackBits(have: seq<bool>, index: nat)
    ensures HasPiece(Some(PackBits(have)), index) <==> index < |have| && have[index]
  {
    var j, t := index / 8, index % 8;
    if j < (|have| + 7) / 8 {
      var bs := Octet(have, j);
      BitOf(bs, t);
      assert PackBits(have)[j] == BitsValue(bs);
      assert bs[t] == (index < |have| && have[index]);
    }
  }
}
