/**
 * Fetching one piece from one peer, as functions of what the client knows
 * about the peer and of the bytes the peer sends: wait for its bitfield,
 * wait for it to unchoke, then read messages until every requested block
 * has arrived or the peer has gone quiet too often. The methods of both
 * downloaders are proved equal to these functions.
 */
module Fetching {
  import opened Binary
  import opened PeerWire
  import opened Layout

  /** `wait_time` starts at 0 and grows by 0.1 while below 5: in floating point that is 51 polls. */
  const UNCHOKE_POLLS: nat := 51
  /** `for _ in range(10)` while waiting for the bitfield. */
  const BITFIELD_POLLS: nat := 10
  /** `max_timeout`: empty polls in a row before giving up on a piece. */
  const MAX_TIMEOUT: nat := 100

  /** The peer as a fetch sees it: its flags and the bytes it will still send. */
  datatype Link = Link(flags: PeerFlags, stream: seq<Byte>)

  /**
   * How fetching a piece ends: the blocks received, keyed by offset; a
   * plain failure (`None`); or the exception `handle_message` raised.
   */
  datatype Fetch = Blocks(blocks: map<int, seq<Byte>>) | Failed | Crashed

  /** One `receive_message` on the link, then `handle_message` on what it returned. */
  function Poll(l: Link): (r: (Link, Incoming, Event))
    ensures |r.0.stream| <= |l.stream|
    ensures r.1.Message? ==> |r.0.stream| < |l.stream|
    ensures l.stream != [] ==> |r.0.stream| < |l.stream|
  {
    var (m, rest) := ReadFrame(l.stream);
    var (g, e) := Handle(l.flags, m);
    (Link(g, rest), m, e)
  }

  /** The bitfield wait of `peer_worker`: at most `polls` polls, stopping once a bitfield is known. */
  function WaitBitfield(l: Link, polls: nat): (r: (Link, bool))
    decreases polls
  {
    if polls == 0 then (l, false)
    else
      var (next, _, e) := Poll(l);
      if e.Malformed? then (next, true)
      else if next.flags.bitfield.Some? then (next, false)
      else WaitBitfield(next, polls - 1)
  }

  /** The unchoke wait of `download_piece_from_peer`: poll while choked, at most `polls` times. */
  function WaitUnchoke(l: Link, polls: nat): (r: (Link, bool))
    decreases polls
  {
    if !l.flags.peerChoking || polls == 0 then (l, false)
    else
      var (next, _, e) := Poll(l);
      if e.Malformed? then (next, true)
      else WaitUnchoke(next, polls - 1)
  }

  /**
   * The collection loop, from `data` received so far and `counter` empty
   * polls in a row: a block of the wanted piece is stored under its offset
   * and resets the counter, an empty poll increments it, anything else is
   * handled and ignored. The loop stops once `needed` offsets are filled
   * (the blocks) or the counter reaches its limit (a failure).
   */
  function Collect(l: Link, index: nat, needed: nat, data: map<int, seq<Byte>>, counter: nat): (r: (Link, Fetch))
    decreases |l.stream|, MAX_TIMEOUT - counter
  {
    if |data| >= needed then (l, Blocks(data))
    else if counter >= MAX_TIMEOUT then (l, Failed)
    else
      var (next, m, e) := Poll(l);
      if m.NoMessage? then Collect(next, index, needed, data, counter + 1)
      else if e.Malformed? then (next, Crashed)
      else if e.Block? && e.index == index then Collect(next, index, needed, data[e.begin := e.block], 0)
      else Collect(next, index, needed, data, counter)
  }

  /**
   * `download_piece_from_peer`: give up at once if the bitfield lacks the
   * piece; otherwise wait for an unchoke, give up if none came, and collect
   * one block per planned request.
   */
  function FetchPiece(l: Link, index: nat, pieceLength: int): (r: (Link, Fetch))
  {
    if !HasPiece(l.flags.bitfield, index) then (l, Failed)
    else FetchOnceInterested(l, index, pieceLength)
  }

  /** `download_piece_from_peer` from the unchoke wait on. */
  function FetchOnceInterested(l: Link, index: nat, pieceLength: int): (r: (Link, Fetch))
  {
    var (w, crashed) := WaitUnchoke(l, UNCHOKE_POLLS);
    if crashed then (w, Crashed)
    else if w.flags.peerChoking then (w, Failed)
    else Collect(w, index, |BlockPlan(pieceLength)|, map[], 0)
  }

  /**
   * The request messages for the blocks of a piece from offset `begin` on,
   * in order: one 17-byte message per planned block.
   */
  function Requests(index: nat, pieceLength: int, begin: nat): seq<Byte>
    requires index < U32_LIMIT && pieceLength <= U32_LIMIT
    decreases pieceLength - begin
  {
    if begin >= pieceLength then []
    else RequestFrame(index, begin, Min(BLOCK_SIZE, pieceLength - begin)) + Requests(index, pieceLength, begin + BLOCK_SIZE)
  }

  /** One 17-byte message per planned block. */
  lemma {:induction false} RequestsLength(index: nat, pieceLength: int, begin: nat)
    requires index < U32_LIMIT && pieceLength <= U32_LIMIT
    ensures |Requests(index, pieceLength, begin)| == 17 * |PlanFrom(pieceLength, begin)|
    decreases pieceLength - begin
  {
    if begin < pieceLength {
      RequestsLength(index, pieceLength, begin + BLOCK_SIZE);
    }
  }

  /** The requests from `begin` on: the request for the block at `begin`, then the requests for the rest. */
  lemma RequestsUnfold(index: nat, pieceLength: int, begin: nat)
    requires index < U32_LIMIT && pieceLength <= U32_LIMIT && begin < pieceLength
    ensures var span := Span(begin, Min(BLOCK_SIZE, pieceLength - begin));
      PlanFrom(pieceLength, begin) == [span] + PlanFrom(pieceLength, begin + BLOCK_SIZE)
      && Requests(index, pieceLength, begin)
         == RequestFrame(index, span.begin, span.length) + Requests(index, pieceLength, begin + BLOCK_SIZE)
  {
  }

  /** The k-th 17-byte message of the requests asks for the k-th block of the plan. */
  lemma {:induction false} RequestsFollowPlan(index: nat, pieceLength: int, begin: nat, k: nat)
    requires index < U32_LIMIT && pieceLength <= U32_LIMIT
    requires k < |PlanFrom(pieceLength, begin)|
    ensures |Requests(index, pieceLength, begin)| == 17 * |PlanFrom(pieceLength, begin)|
    ensures var s := PlanFrom(pieceLength, begin)[k];
      s.begin < U32_LIMIT && s.length < U32_LIMIT
      && Requests(index, pieceLength, begin)[17 * k..17 * k + 17] == RequestFrame(index, s.begin, s.length)
    decreases pieceLength - begin
  {
    RequestsUnfold(index, pieceLength, begin);
    RequestsLength(index, pieceLength, begin);
    var span := Span(begin, Min(BLOCK_SIZE, pieceLength - begin));
    var first := RequestFrame(index, begin, span.length);
    var later := Requests(index, pieceLength, begin + BLOCK_SIZE);
    if k == 0 {
      SliceOfFirst(first, later);
    } else {
      RequestsFollowPlan(index, pieceLength, begin + BLOCK_SIZE, k - 1);
      SliceOfSecond(first, later, 17 * k, 17 * k + 17);
    }
  }

  // ---------------------------------------------------------------------
  // Properties
  // ---------------------------------------------------------------------

  /**
   * The synchronous client stops collecting once `count * 16384 >=
   * piece_length`, the asynchronous one once `count >= len(blocks_needed)`:
   * the two tests agree.
   */
  lemma CompletionTestsAgree(count: nat, pieceLength: int)
    ensures count >= |BlockPlan(pieceLength)| <==> count * BLOCK_SIZE >= pieceLength
  {
    BlockPlanShape(pieceLength);
  }

  /** A bitfield message ends the bitfield wait, which then holds it. */
  lemma BitfieldEndsWait(f: PeerFlags, bits: seq<Byte>, rest: seq<Byte>, polls: nat)
    requires polls >= 1 && |bits| < U32_LIMIT - 1
    ensures WaitBitfield(Link(f, Frame(BITFIELD, bits) + rest), polls) == (Link(f.(bitfield := Some(bits)), rest), false)
  {
    ReadFrameOfFrame(BITFIELD, bits, rest);
  }

  /** An unchoke message ends the unchoke wait with the peer unchoked. */
  lemma UnchokeEndsWait(f: PeerFlags, rest: seq<Byte>, polls: nat)
    requires polls >= 1 && f.peerChoking
    ensures WaitUnchoke(Link(f, Frame(UNCHOKE, []) + rest), polls) == (Link(f.(peerChoking := false), rest), false)
  {
    ReadFrameOfFrame(UNCHOKE, [], rest);
  }

  /** A peer that sends nothing stays choking however often it is polled. */
  lemma {:induction false} SilentPeerStaysChoking(f: PeerFlags, polls: nat)
    requires f.peerChoking
    ensures WaitUnchoke(Link(f, []), polls) == (Link(f, []), false)
    decreases polls
  {
    if polls > 0 {
      assert Poll(Link(f, [])) == (Link(f, []), NoMessage, NoEvent);
      SilentPeerStaysChoking(f, polls - 1);
    }
  }

  /** What a peer sends that answers the request for every block of a piece, from offset `begin` on. */
  function ServeFrom(index: nat, data: seq<Byte>, begin: nat): seq<Byte>
    requires index < U32_LIMIT && |data| <= U32_LIMIT
    decreases |data| - begin
  {
    if begin >= |data| then []
    else
      PieceFrame(index, begin, data[begin..Min(begin + BLOCK_SIZE, |data|)])
      + ServeFrom(index, data, begin + BLOCK_SIZE)
  }

  /** The blocks of `data` at the offsets below `begin`, as received so far. */
  ghost predicate ReceivedBelow(data: seq<Byte>, begin: nat, acc: map<int, seq<Byte>>)
  {
    (forall b :: b in acc <==> 0 <= b < begin && b < |data| && b % BLOCK_SIZE == 0)
    && (forall b | b in acc :: acc[b] == Slice(data, b, b + BLOCK_SIZE))
    && |acc| == if begin < |data| then begin / BLOCK_SIZE else (|data| + BLOCK_SIZE - 1) / BLOCK_SIZE
  }

  /** Storing the block at `begin` extends the received offsets by one. */
  lemma StoreNextBlock(data: seq<Byte>, begin: nat, acc: map<int, seq<Byte>>)
    requires begin < |data| && begin % BLOCK_SIZE == 0
    requires ReceivedBelow(data, begin, acc)
    ensures begin !in acc && |acc| < (|data| + BLOCK_SIZE - 1) / BLOCK_SIZE
    ensures ReceivedBelow(data, begin + BLOCK_SIZE, acc[begin := data[begin..Min(begin + BLOCK_SIZE, |data|)]])
  {
    var acc' := acc[begin := data[begin..Min(begin + BLOCK_SIZE, |data|)]];
    forall b ensures b in acc' <==> 0 <= b < begin + BLOCK_SIZE && b < |data| && b % BLOCK_SIZE == 0 {
      if b != begin && 0 <= b < begin + BLOCK_SIZE && b % BLOCK_SIZE == 0 {
        assert b < begin;
      }
    }
    assert |acc'| == begin / BLOCK_SIZE + 1;
    assert (begin + BLOCK_SIZE) / BLOCK_SIZE == begin / BLOCK_SIZE + 1;
    if begin + BLOCK_SIZE >= |data| {
      assert (|data| + BLOCK_SIZE - 1) / BLOCK_SIZE == begin / BLOCK_SIZE + 1;
    }
  }

  /** Once every offset is in, what was received is the piece split along the plan. */
  lemma ReceivedAll(data: seq<Byte>, begin: nat, acc: map<int, seq<Byte>>)
    requires begin >= |data| && ReceivedBelow(data, begin, acc)
    ensures acc == Split(data) && |acc| == (|data| + BLOCK_SIZE - 1) / BLOCK_SIZE
  {
    SplitOffsets(data);
    assert acc.Keys == Split(data).Keys;
  }

  /** A block of the wanted piece, with offsets still missing, is stored and resets the counter. */
  lemma CollectStoresBlock(f: PeerFlags, stream: seq<Byte>, later: seq<Byte>, index: nat, needed: nat,
                           data: map<int, seq<Byte>>, counter: nat, begin: nat, block: seq<Byte>)
    requires |data| < needed && counter < MAX_TIMEOUT
    requires ReadFrame(stream).1 == later && ReadFrame(stream).0.Message?
    requires Handle(f, ReadFrame(stream).0) == (f, Block(index, begin, block))
    ensures Collect(Link(f, stream), index, needed, data, counter)
            == Collect(Link(f, later), index, needed, data[begin := block], 0)
  {
  }

  /** The next message a faithful peer sends is the block at `begin`, and what follows serves the rest. */
  lemma ServeNextBlock(f: PeerFlags, index: nat, data: seq<Byte>, begin: nat, rest: seq<Byte>)
    requires index < U32_LIMIT && |data| <= U32_LIMIT && begin < |data|
    ensures var (m, after) := ReadFrame(ServeFrom(index, data, begin) + rest);
      m.Message? && after == ServeFrom(index, data, begin + BLOCK_SIZE) + rest
      && Handle(f, m) == (f, Block(index, begin, data[begin..Min(begin + BLOCK_SIZE, |data|)]))
  {
    var block := data[begin..Min(begin + BLOCK_SIZE, |data|)];
    var later := ServeFrom(index, data, begin + BLOCK_SIZE) + rest;
    assert ServeFrom(index, data, begin) + rest == PieceFrame(index, begin, block) + later;
    ReceivePieceFrame(f, index, begin, block, later);
  }

  /** Collection goes on from the next block a faithful peer sends. */
  lemma ServedStep(f: PeerFlags, index: nat, data: seq<Byte>, begin: nat, needed: nat,
                   acc: map<int, seq<Byte>>, rest: seq<Byte>)
    requires index < U32_LIMIT && |data| <= U32_LIMIT && begin < |data| && |acc| < needed
    requires Collect(Link(f, ServeFrom(index, data, begin + BLOCK_SIZE) + rest), index, needed,
                     acc[begin := data[begin..Min(begin + BLOCK_SIZE, |data|)]], 0) == (Link(f, rest), Blocks(Split(data)))
    ensures Collect(Link(f, ServeFrom(index, data, begin) + rest), index, needed, acc, 0) == (Link(f, rest), Blocks(Split(data)))
  {
    ServeNextBlock(f, index, data, begin, rest);
    CollectStoresBlock(f, ServeFrom(index, data, begin) + rest, ServeFrom(index, data, begin + BLOCK_SIZE) + rest,
                       index, needed, acc, 0, begin, data[begin..Min(begin + BLOCK_SIZE, |data|)]);
  }

  /** With every offset received, collection stops at once and returns the piece's blocks. */
  lemma ServedAll(f: PeerFlags, index: nat, data: seq<Byte>, begin: nat, needed: nat,
                  acc: map<int, seq<Byte>>, rest: seq<Byte>)
    requires index < U32_LIMIT && |data| <= U32_LIMIT && begin >= |data|
    requires needed == (|data| + BLOCK_SIZE - 1) / BLOCK_SIZE
    requires ReceivedBelow(data, begin, acc)
    ensures Collect(Link(f, ServeFrom(index, data, begin) + rest), index, needed, acc, 0)
            == (Link(f, rest), Blocks(Split(data)))
  {
    ReceivedAll(data, begin, acc);
    assert ServeFrom(index, data, begin) + rest == rest;
  }

  /** Collecting what a faithful peer sends from offset `begin` on completes the piece. */
  lemma {:induction false} CollectServed(f: PeerFlags, index: nat, data: seq<Byte>, begin: nat, needed: nat,
                                         acc: map<int, seq<Byte>>, rest: seq<Byte>)
    requires index < U32_LIMIT && |data| <= U32_LIMIT && begin % BLOCK_SIZE == 0
    requires needed == (|data| + BLOCK_SIZE - 1) / BLOCK_SIZE
    requires ReceivedBelow(data, begin, acc)
    ensures Collect(Link(f, ServeFrom(index, data, begin) + rest), index, needed, acc, 0)
            == (Link(f, rest), Blocks(Split(data)))
    decreases |data| - begin
  {
    if begin >= |data| {
      ServedAll(f, index, data, begin, needed, acc, rest);
    } else {
      var acc' := acc[begin := data[begin..Min(begin + BLOCK_SIZE, |data|)]];
      assert |acc| < needed && ReceivedBelow(data, begin + BLOCK_SIZE, acc') by {
        StoreNextBlock(data, begin, acc);
      }
      CollectServed(f, index, data, begin + BLOCK_SIZE, needed, acc', rest);
      ServedStep(f, index, data, begin, needed, acc, rest);
    }
  }

  /**
   * A peer that has the piece, unchokes if it was choking and then answers
   * every request: the fetch returns exactly the piece's blocks by offset,
   * which put back together are the piece, and leaves the rest unread.
   */
  lemma ServedPieceIsFetched(f: PeerFlags, index: nat, data: seq<Byte>, rest: seq<Byte>)
    requires HasPiece(f.bitfield, index)
    requires index < U32_LIMIT && |data| <= U32_LIMIT
    ensures var unchoke := if f.peerChoking then Frame(UNCHOKE, []) else [];
      FetchPiece(Link(f, unchoke + (ServeFrom(index, data, 0) + rest)), index, |data|)
        == (Link(f.(peerChoking := false), rest), Blocks(Split(data)))
    ensures Assemble(Split(data)) == data
  {
    var g := f.(peerChoking := false);
    var served := ServeFrom(index, data, 0) + rest;
    var unchoke := if f.peerChoking then Frame(UNCHOKE, []) else [];
    assert WaitUnchoke(Link(f, unchoke + served), UNCHOKE_POLLS) == (Link(g, served), false) by {
      if f.peerChoking {
        UnchokeEndsWait(f, served, UNCHOKE_POLLS);
      } else {
        assert unchoke + served == served;
      }
    }
    CollectWholePiece(g, index, data, rest);
    FetchOnceUnchoked(Link(f, unchoke + served), index, |data|, Link(g, served));
    SplitAssemble(data);
  }

  /** Collecting one block per planned request from a faithful peer returns the piece's blocks. */
  lemma CollectWholePiece(f: PeerFlags, index: nat, data: seq<Byte>, rest: seq<Byte>)
    requires index < U32_LIMIT && |data| <= U32_LIMIT
    ensures Collect(Link(f, ServeFrom(index, data, 0) + rest), index, |BlockPlan(|data|)|, map[], 0)
            == (Link(f, rest), Blocks(Split(data)))
  {
    PlanCount(|data|);
    CollectServed(f, index, data, 0, (|data| + BLOCK_SIZE - 1) / BLOCK_SIZE, map[], rest);
  }

  /** Once the unchoke wait ends with the peer unchoked, the fetch is the collection loop. */
  lemma FetchOnceUnchoked(l: Link, index: nat, pieceLength: int, w: Link)
    requires HasPiece(l.flags.bitfield, index)
    requires WaitUnchoke(l, UNCHOKE_POLLS) == (w, false) && !w.flags.peerChoking
    ensures FetchPiece(l, index, pieceLength) == Collect(w, index, |BlockPlan(pieceLength)|, map[], 0)
  {
  }
}
