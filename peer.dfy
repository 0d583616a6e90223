/**
 * One connection to a remote peer: `BitTorrentPeer` and its asynchronous
 * twin `AsyncBitTorrentPeer`, which keep the same state and react to
 * messages the same way. The socket is replaced by two byte streams: what
 * the peer will still send, as the segments successive `recv` calls hand
 * over, and everything written to it so far.
 */
module PeerSession {
  import opened Binary
  import opened PeerWire

  /** Moving the first `take` bytes of a segment from what is pending to what was read. */
  lemma RegroupFront(got: seq<Byte>, chunk: seq<Byte>, take: nat, tail: seq<Byte>)
    requires take <= |chunk|
    ensures (got + chunk[..take]) + (chunk[take..] + tail) == got + (chunk + tail)
  {
    assert chunk == chunk[..take] + chunk[take..];
  }

  class Peer {
    const infoHash: seq<Byte>
    const peerId: seq<Byte>
    /** Whether `connect` succeeds. */
    const reachable: bool
    var interested: bool
    var peerChoking: bool
    var peerInterested: bool
    var bitfield: Option<seq<Byte>>
    /** What the peer will still send, one `recv` segment at a time. */
    var incoming: seq<seq<Byte>>
    /** Every byte written to the peer so far. */
    var sent: seq<Byte>

    /** The bytes the peer will still send, in order. */
    function Pending(): seq<Byte>
      reads this
    {
      Join(incoming)
    }

    function Flags(): PeerFlags
      reads this
    {
      PeerFlags(peerChoking, peerInterested, bitfield)
    }

    /** `has_piece` on the bitfield received so far. */
    predicate Has(index: nat)
      reads this
    {
      HasPiece(bitfield, index)
    }

    constructor (infoHash: seq<Byte>, peerId: seq<Byte>, reachable: bool, incoming: seq<seq<Byte>>)
      ensures this.infoHash == infoHash && this.peerId == peerId && this.reachable == reachable
      ensures this.incoming == incoming && sent == []
      ensures !interested && peerChoking && !peerInterested && bitfield == None
    {
      this.infoHash := infoHash;
      this.peerId := peerId;
      this.reachable := reachable;
      this.incoming := incoming;
      sent := [];
      interested := false;
      peerChoking := true;
      peerInterested := false;
      bitfield := None;
    }

    /**
     * `_recv_exact(n)`: exactly the next n bytes, or None (the
     * `ConnectionError` raised when the peer closes first, having consumed
     * everything it sent).
     */
    method RecvExact(n: nat) returns (data: Option<seq<Byte>>)
      modifies this`incoming
      ensures |old(Pending())| >= n ==> data == Some(old(Pending())[..n]) && Pending() == old(Pending())[n..]
      ensures |old(Pending())| < n ==> data == None && Pending() == []
    {
      var got: seq<Byte> := [];
      while |got| < n
        invariant |got| <= n
        invariant old(Pending()) == got + Pending()
        decreases |Pending()|, |incoming|
      {
        if incoming == [] {
          return None;
        }
        var chunk := incoming[0];
        var take := if |chunk| < n - |got| then |chunk| else n - |got|;
        ghost var tail := Join(incoming[1..]);
        assert Pending() == chunk + tail;
        RegroupFront(got, chunk, take, tail);
        got := got + chunk[..take];
        if take == |chunk| {
          incoming := incoming[1..];
          assert Pending() == chunk[take..] + tail;
        } else {
          incoming := [chunk[take..]] + incoming[1..];
          assert Pending() == chunk[take..] + tail;
        }
      }
      assert old(Pending())[..n] == got;
      data := Some(got);
    }

    /**
     * `handshake`: writes the handshake, reads the 68-byte answer and
     * accepts it when the protocol string and the info hash match; a
     * connection closed early is a failed handshake.
     */
    method Handshake() returns (ok: bool)
      modifies this`sent, this`incoming
      ensures sent == old(sent) + HandshakeMessage(infoHash, peerId)
      ensures ok <==> |old(Pending())| >= HANDSHAKE_LENGTH
                      && HandshakeAccepted(old(Pending())[..HANDSHAKE_LENGTH], infoHash)
      ensures Pending() == if |old(Pending())| >= HANDSHAKE_LENGTH then old(Pending())[HANDSHAKE_LENGTH..] else []
    {
      sent := sent + HandshakeMessage(infoHash, peerId);
      var response := RecvExact(HANDSHAKE_LENGTH);
      if response.None? {
        return false;
      }
      var r := response.value;
      if r[0] != 19 || r[1..20] != PSTR {
        return false;
      }
      if r[28..48] != infoHash {
        return false;
      }
      return true;
    }

    /** `send_interested`: writes the interested message and remembers it. */
    method SendInterested()
      modifies this`sent, this`interested
      ensures sent == old(sent) + InterestedFrame() && interested
    {
      sent := sent + InterestedFrame();
      interested := true;
    }

    /** `send_request`: writes a request for `length` bytes at `begin` of a piece. */
    method SendRequest(index: nat, begin: nat, length: nat)
      requires index < U32_LIMIT && begin < U32_LIMIT && length < U32_LIMIT
      modifies this`sent
      ensures sent == old(sent) + RequestFrame(index, begin, length)
    {
      sent := sent + RequestFrame(index, begin, length);
    }

    /**
     * `receive_message`: reads the length, the id and the payload of the
     * next message, the same as `ReadFrame` on the bytes still to come.
     */
    method ReceiveMessage() returns (m: Incoming)
      modifies this`incoming
      ensures (m, Pending()) == ReadFrame(old(Pending()))
    {
      ghost var stream := Pending();
      var lengthData := RecvExact(4);
      if lengthData.None? {
        return NoMessage;
      }
      var length := FromBigEndian(lengthData.value);
      if length == 0 {
        return NoMessage;
      }
      var idData := RecvExact(1);
      if idData.None? {
        return NoMessage;
      }
      var payload: seq<Byte> := [];
      if length > 1 {
        var payloadData := RecvExact(length - 1);
        if payloadData.None? {
          return NoMessage;
        }
        payload := payloadData.value;
        assert payload == stream[5..4 + length];
      }
      assert Pending() == stream[4 + length..];
      m := Message(idData.value[0], payload);
    }

    /** `handle_message`: updates the peer's flags and hands back what the message carried. */
    method HandleMessage(m: Incoming) returns (e: Event)
      modifies this`peerChoking, this`peerInterested, this`bitfield
      ensures (Flags(), e) == Handle(old(Flags()), m)
    {
      e := NoEvent;
      if m.NoMessage? {
        return;
      }
      var id, payload := m.id, m.payload;
      if id == CHOKE {
        peerChoking := true;
      } else if id == UNCHOKE {
        peerChoking := false;
      } else if id == INTERESTED {
        peerInterested := true;
      } else if id == NOT_INTERESTED {
        peerInterested := false;
      } else if id == HAVE {
        if |payload| != 4 {
          e := Malformed;
        }
      } else if id == BITFIELD {
        bitfield := Some(payload);
      } else if id == PIECE {
        if |payload| < 8 {
          e := Malformed;
        } else {
          e := Block(FromBigEndian(payload[..4]), FromBigEndian(payload[4..8]), payload[8..]);
        }
      }
    }
  }
}
