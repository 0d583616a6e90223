/**
 * The synchronous downloader of connect_to_peer.py: `download_piece` on one
 * peer object, and `download_from_peers`, which tries the peers one after
 * the other and fills an array holding one slot per piece. SHA-1 is a
 * function the downloader is given.
 */
module Sequential {
  import opened Binary
  import opened PeerWire
  import opened PeerSession
  import opened Layout
  import opened Fetching
  import opened Swarm

  /** `max_attempts`: receives at the start of `download_piece`, before the bitfield is looked at. */
  const WARMUP_POLLS: nat := 50

  /**
   * How the unchoke wait of `download_piece` ends. The wait has no bound:
   * a choking peer with nothing more to send keeps it spinning forever.
   */
  datatype Wait = Unchoked | WaitRaised | WaitsForever

  /**
   * How `download_piece` ends: the verified piece, `None`, the exception
   * `handle_message` raised, or never.
   */
  datatype Outcome = Piece(data: seq<Byte>) | NoPiece | Threw | Hangs

  /** How `download_from_peers` ends: every slot filled, peers exhausted, or cut short. */
  datatype RunEnd = Complete | Incomplete | Aborted(cause: Outcome)

  // ---------------------------------------------------------------------
  // `download_piece` as functions of the link
  // ---------------------------------------------------------------------

  /**
   * The first fifty receives, each message handled; the blocks they bring
   * are dropped when the collection starts afresh, so only the flags and
   * the exception matter.
   */
  function Warmup(l: Link, polls: nat): (r: (Link, bool))
    decreases polls
  {
    if polls == 0 then (l, false)
    else
      var (next, _, e) := Poll(l);
      if e.Malformed? then (next, true)
      else Warmup(next, polls - 1)
  }

  /** The unchoke wait: receive and handle messages for as long as the peer chokes. */
  function UnchokeWait(l: Link): (r: (Link, Wait))
    decreases |l.stream|
  {
    if !l.flags.peerChoking then (l, Unchoked)
    else if l.stream == [] then (l, WaitsForever)
    else
      var (next, _, e) := Poll(l);
      if e.Malformed? then (next, WaitRaised)
      else UnchokeWait(next)
  }

  /**
   * The collection loop, from the blocks received so far and `counter`
   * empty receives in a row. It runs while fewer than `pieceLength / 16384`
   * (rounded up) offsets are filled and the counter is below its limit, and
   * hands back the blocks and whether `handle_message` raised.
   */
  function Gather(l: Link, index: nat, pieceLength: int, data: map<int, seq<Byte>>, counter: nat)
    : (r: (Link, map<int, seq<Byte>>, bool))
    decreases |l.stream|, MAX_TIMEOUT - counter
  {
    if |data| * BLOCK_SIZE >= pieceLength || counter >= MAX_TIMEOUT then (l, data, false)
    else
      var (next, m, e) := Poll(l);
      if m.NoMessage? then Gather(next, index, pieceLength, data, counter + 1)
      else if e.Malformed? then (next, data, true)
      else if e.Block? && e.index == index then Gather(next, index, pieceLength, data[e.begin := e.block], 0)
      else Gather(next, index, pieceLength, data, counter)
  }

  /** One receive of the collection loop while it still runs. */
  lemma GatherStep(l: Link, index: nat, pieceLength: int, data: map<int, seq<Byte>>, counter: nat)
    requires |data| * BLOCK_SIZE < pieceLength && counter < MAX_TIMEOUT
    ensures var (next, m, e) := Poll(l);
      Gather(l, index, pieceLength, data, counter)
      == if m.NoMessage? then Gather(next, index, pieceLength, data, counter + 1)
         else if e.Malformed? then (next, data, true)
         else if e.Block? && e.index == index then Gather(next, index, pieceLength, data[e.begin := e.block], 0)
         else Gather(next, index, pieceLength, data, counter)
  {
  }

  /**
   * The end of `download_piece`: `None` when the received blocks are
   * shorter in total than the piece, or when the blocks joined by offset
   * do not hash to `hash`; otherwise that join. The summed lengths are the
   * length of the join.
   */
  function Conclude(blocks: map<int, seq<Byte>>, pieceLength: int, hash: seq<Byte>, sha1: seq<Byte> -> seq<Byte>)
    : (r: Outcome)
    ensures r.Piece? <==> |Assemble(blocks)| >= pieceLength && sha1(Assemble(blocks)) == hash
    ensures r.Piece? ==> r.data == Assemble(blocks)
    ensures r.Piece? || r.NoPiece?
  {
    AssembleLength(blocks);
    if BlocksLength(blocks) < pieceLength then NoPiece
    else
      var piece := Assemble(blocks);
      if sha1(piece) != hash then NoPiece else Piece(piece)
  }

  /** `download_piece` once the fifty first receives are over. */
  function AfterWarmup(l: Link, index: nat, pieceLength: int, hash: seq<Byte>, sha1: seq<Byte> -> seq<Byte>)
    : (Link, Outcome)
  {
    if !HasPiece(l.flags.bitfield, index) then (l, NoPiece)
    else
      var (w, wait) := UnchokeWait(l);
      if wait.WaitRaised? then (w, Threw)
      else if wait.WaitsForever? then (w, Hangs)
      else
        var (c, blocks, crashed) := Gather(w, index, pieceLength, map[], 0);
        if crashed then (c, Threw) else (c, Conclude(blocks, pieceLength, hash, sha1))
  }

  /** `download_piece`: the peer's new state and how the call ends. */
  function PieceDownload(l: Link, index: nat, pieceLength: int, hash: seq<Byte>, sha1: seq<Byte> -> seq<Byte>)
    : (Link, Outcome)
  {
    var (a, crashed) := Warmup(l, WARMUP_POLLS);
    if crashed then (a, Threw) else AfterWarmup(a, index, pieceLength, hash, sha1)
  }

  /**
   * What `download_piece` writes once the first receives are over: nothing
   * if the peer lacks the piece; otherwise `interested` unless it was sent
   * before, then, once the peer has unchoked, the requests for every block.
   */
  function SentAfterWarmup(l: Link, interested: bool, index: nat, pieceLength: int): seq<Byte>
    requires index < U32_LIMIT && pieceLength <= U32_LIMIT
  {
    if !HasPiece(l.flags.bitfield, index) then []
    else
      (if interested then [] else InterestedFrame())
      + (if UnchokeWait(l).1.Unchoked? then Requests(index, pieceLength, 0) else [])
  }

  /** What `download_piece` writes to a peer with the given link. */
  function SentBy(l: Link, interested: bool, index: nat, pieceLength: int): seq<Byte>
    requires index < U32_LIMIT && pieceLength <= U32_LIMIT
  {
    var (a, crashed) := Warmup(l, WARMUP_POLLS);
    if crashed then [] else SentAfterWarmup(a, interested, index, pieceLength)
  }

  /** Whether `download_piece` reaches the point where it declares interest. */
  predicate Asks(l: Link, index: nat)
  {
    var (a, crashed) := Warmup(l, WARMUP_POLLS);
    !crashed && HasPiece(a.flags.bitfield, index)
  }

  // ---------------------------------------------------------------------
  // Properties of `download_piece`
  // ---------------------------------------------------------------------

  /**
   * The synchronous collection loop and the asynchronous one read the same
   * messages and store the same blocks; the asynchronous loop reports a
   * failure where the synchronous one hands back a block map with fewer
   * offsets than the plan has blocks.
   */
  lemma {:induction false} GatherAgreesWithCollect(l: Link, index: nat, pieceLength: int,
                                                    data: map<int, seq<Byte>>, counter: nat)
    ensures var (g, blocks, crashed) := Gather(l, index, pieceLength, data, counter);
      Collect(l, index, |BlockPlan(pieceLength)|, data, counter)
        == (g, if crashed then Crashed else if |blocks| >= |BlockPlan(pieceLength)| then Blocks(blocks) else Failed)
    decreases |l.stream|, MAX_TIMEOUT - counter
  {
    CompletionTestsAgree(|data|, pieceLength);
    if |data| * BLOCK_SIZE < pieceLength && counter < MAX_TIMEOUT {
      var (next, m, e) := Poll(l);
      if m.NoMessage? {
        GatherAgreesWithCollect(next, index, pieceLength, data, counter + 1);
      } else if e.Malformed? {
      } else if e.Block? && e.index == index {
        GatherAgreesWithCollect(next, index, pieceLength, data[e.begin := e.block], 0);
      } else {
        GatherAgreesWithCollect(next, index, pieceLength, data, counter);
      }
    }
  }

  /** A piece `download_piece` returns has the expected hash and is at least as long as the piece. */
  lemma DownloadedPieceMatchesHash(l: Link, index: nat, pieceLength: int, hash: seq<Byte>,
                                   sha1: seq<Byte> -> seq<Byte>)
    ensures var r := PieceDownload(l, index, pieceLength, hash, sha1).1;
      r.Piece? ==> sha1(r.data) == hash && |r.data| >= pieceLength
  {
    var (a, crashed) := Warmup(l, WARMUP_POLLS);
    if !crashed && HasPiece(a.flags.bitfield, index) {
      var (w, wait) := UnchokeWait(a);
      if wait.Unchoked? {
        var (c, blocks, raised) := Gather(w, index, pieceLength, map[], 0);
        if !raised {
          assert PieceDownload(l, index, pieceLength, hash, sha1).1 == Conclude(blocks, pieceLength, hash, sha1);
        }
      }
    }
  }

  /** `n` keep-alive messages in a row, then `rest`. */
  function KeepAlivesThen(n: nat, rest: seq<Byte>): (r: seq<Byte>)
    ensures |r| == 4 * n + |rest|
  {
    if n == 0 then rest else KEEP_ALIVE + KeepAlivesThen(n - 1, rest)
  }

  /** Receiving a keep-alive yields no message and leaves the flags alone. */
  lemma PollKeepAlive(f: PeerFlags, rest: seq<Byte>)
    ensures Poll(Link(f, KEEP_ALIVE + rest)) == (Link(f, rest), NoMessage, NoEvent)
  {
    ReadKeepAlive(rest);
  }

  /** A receive that yields no message uses up one of the first receives and nothing else. */
  lemma WarmupQuietStep(l: Link, next: Link, n: nat)
    requires n > 0 && Poll(l) == (next, NoMessage, NoEvent)
    ensures Warmup(l, n) == Warmup(next, n - 1)
  {
  }

  /** Keep-alives pass through the first receives without touching the flags. */
  lemma {:induction false} KeepAlivesPass(f: PeerFlags, n: nat, rest: seq<Byte>)
    ensures Warmup(Link(f, KeepAlivesThen(n, rest)), n) == (Link(f, rest), false)
  {
    if n > 0 {
      var later := KeepAlivesThen(n - 1, rest);
      PollKeepAlive(f, later);
      WarmupQuietStep(Link(f, KEEP_ALIVE + later), Link(f, later), n);
      KeepAlivesPass(f, n - 1, rest);
    }
  }

  /** A peer that sends nothing leaves the flags as they were through the first receives. */
  lemma {:induction false} SilentWarmup(f: PeerFlags, n: nat)
    ensures Warmup(Link(f, []), n) == (Link(f, []), false)
  {
    if n > 0 {
      assert Poll(Link(f, [])) == (Link(f, []), NoMessage, NoEvent);
      SilentWarmup(f, n - 1);
    }
  }

  /**
   * An unchoked peer holding the piece that idles through the first
   * receives and then answers every request gives back the piece when its
   * hash matches, and `None` when it does not.
   */
  lemma FaithfulPeerDelivers(f: PeerFlags, index: nat, data: seq<Byte>, rest: seq<Byte>,
                             hash: seq<Byte>, sha1: seq<Byte> -> seq<Byte>)
    requires HasPiece(f.bitfield, index) && !f.peerChoking
    requires index < U32_LIMIT && |data| <= U32_LIMIT
    ensures PieceDownload(Link(f, KeepAlivesThen(WARMUP_POLLS, ServeFrom(index, data, 0) + rest)), index, |data|, hash, sha1)
            == (Link(f, rest), if sha1(data) == hash then Piece(data) else NoPiece)
  {
    var served := ServeFrom(index, data, 0) + rest;
    KeepAlivesPass(f, WARMUP_POLLS, served);
    var w := Link(f, served);
    assert UnchokeWait(w) == (w, Unchoked);
    assert Gather(w, index, |data|, map[], 0) == (Link(f, rest), Split(data), false) by {
      GatherAgreesWithCollect(w, index, |data|, map[], 0);
      CollectWholePiece(f, index, data, rest);
    }
    SplitAssemble(data);
  }

  /**
   * A peer holding the piece that chokes and sends nothing keeps
   * `download_piece` waiting forever, where the asynchronous client gives
   * up on the piece.
   */
  lemma SilentChokedPeerHangs(f: PeerFlags, index: nat, pieceLength: int, hash: seq<Byte>,
                              sha1: seq<Byte> -> seq<Byte>)
    requires HasPiece(f.bitfield, index) && f.peerChoking
    ensures PieceDownload(Link(f, []), index, pieceLength, hash, sha1) == (Link(f, []), Hangs)
    ensures FetchPiece(Link(f, []), index, pieceLength) == (Link(f, []), Failed)
  {
    SilentWarmup(f, WARMUP_POLLS);
    SilentPeerStaysChoking(f, UNCHOKE_POLLS);
  }

  // ---------------------------------------------------------------------
  // `download_piece` on a peer object
  // ---------------------------------------------------------------------

  /** The first fifty receives of `download_piece`, each message handled. */
  method SkipEarlyMessages(p: Peer) returns (crashed: bool)
    modifies p`incoming, p`peerChoking, p`peerInterested, p`bitfield
    ensures (LinkOf(p.Flags(), p.Pending()), crashed)
            == Warmup(LinkOf(old(p.Flags()), old(p.Pending())), WARMUP_POLLS)
  {
    ghost var goal := Warmup(LinkOf(p.Flags(), p.Pending()), WARMUP_POLLS);
    for polls := 0 to WARMUP_POLLS
      invariant Warmup(LinkOf(p.Flags(), p.Pending()), WARMUP_POLLS - polls) == goal
    {
      ghost var before := LinkOf(p.Flags(), p.Pending());
      var m := p.ReceiveMessage();
      if m.Message? {
        var e := p.HandleMessage(m);
        if e.Malformed? {
          return true;
        }
      }
      assert Poll(before).0 == LinkOf(p.Flags(), p.Pending());
    }
    return false;
  }

  /**
   * The unchoke wait: while the peer chokes, receive and handle one
   * message. Where the source would spin forever on a peer with nothing
   * more to send, the model stops and says so.
   */
  method AwaitUnchokeUnbounded(p: Peer) returns (wait: Wait)
    modifies p`incoming, p`peerChoking, p`peerInterested, p`bitfield
    ensures (LinkOf(p.Flags(), p.Pending()), wait) == UnchokeWait(LinkOf(old(p.Flags()), old(p.Pending())))
  {
    ghost var goal := UnchokeWait(LinkOf(p.Flags(), p.Pending()));
    while p.peerChoking
      invariant UnchokeWait(LinkOf(p.Flags(), p.Pending())) == goal
      decreases |p.Pending()|
    {
      if p.Pending() == [] {
        return WaitsForever;
      }
      ghost var before := LinkOf(p.Flags(), p.Pending());
      var m := p.ReceiveMessage();
      if m.Message? {
        var e := p.HandleMessage(m);
        if e.Malformed? {
          return WaitRaised;
        }
      }
      assert Poll(before).0 == LinkOf(p.Flags(), p.Pending());
    }
    return Unchoked;
  }

  /**
   * The collection loop of `download_piece`: blocks of the piece are
   * stored by offset until enough offsets are filled to cover the piece or
   * a hundred empty receives in a row have passed.
   */
  method GatherBlocks(p: Peer, index: nat, pieceLength: int) returns (blocks: map<int, seq<Byte>>, crashed: bool)
    modifies p`incoming, p`peerChoking, p`peerInterested, p`bitfield
    ensures (LinkOf(p.Flags(), p.Pending()), blocks, crashed)
            == Gather(LinkOf(old(p.Flags()), old(p.Pending())), index, pieceLength, map[], 0)
  {
    ghost var goal := Gather(LinkOf(p.Flags(), p.Pending()), index, pieceLength, map[], 0);
    blocks := map[];
    var counter := 0;
    while |blocks| * BLOCK_SIZE < pieceLength && counter < MAX_TIMEOUT
      invariant counter <= MAX_TIMEOUT
      invariant Gather(LinkOf(p.Flags(), p.Pending()), index, pieceLength, blocks, counter) == goal
      decreases |p.Pending()|, MAX_TIMEOUT - counter
    {
      ghost var before := LinkOf(p.Flags(), p.Pending());
      GatherStep(before, index, pieceLength, blocks, counter);
      var m := p.ReceiveMessage();
      if m.NoMessage? {
        assert Poll(before) == (LinkOf(p.Flags(), p.Pending()), m, NoEvent);
        counter := counter + 1;
        continue;
      }
      var e := p.HandleMessage(m);
      assert Poll(before) == (LinkOf(p.Flags(), p.Pending()), m, e);
      if e.Malformed? {
        return blocks, true;
      }
      if e.Block? && e.index == index {
        blocks := blocks[e.begin := e.block];
        counter := 0;
      }
    }
    crashed := false;
  }

  /** Once the peer has unchoked: request every block, then collect. */
  method RequestAndGather(p: Peer, index: nat, pieceLength: int) returns (blocks: map<int, seq<Byte>>, crashed: bool)
    requires index < U32_LIMIT && pieceLength <= U32_LIMIT
    modifies p`sent, p`incoming, p`peerChoking, p`peerInterested, p`bitfield
    ensures (LinkOf(p.Flags(), p.Pending()), blocks, crashed)
            == Gather(LinkOf(old(p.Flags()), old(p.Pending())), index, pieceLength, map[], 0)
    ensures p.sent == old(p.sent) + Requests(index, pieceLength, 0)
  {
    var _ := RequestBlocks(p, index, pieceLength);
    blocks, crashed := GatherBlocks(p, index, pieceLength);
  }

  /** `download_piece` from the bitfield test on. */
  method Attempt(p: Peer, index: nat, pieceLength: int, hash: seq<Byte>, sha1: seq<Byte> -> seq<Byte>)
    returns (r: Outcome)
    requires index < U32_LIMIT && pieceLength <= U32_LIMIT
    modifies p`sent, p`interested, p`incoming, p`peerChoking, p`peerInterested, p`bitfield
    ensures (LinkOf(p.Flags(), p.Pending()), r)
            == AfterWarmup(LinkOf(old(p.Flags()), old(p.Pending())), index, pieceLength, hash, sha1)
    ensures p.sent == old(p.sent) + SentAfterWarmup(LinkOf(old(p.Flags()), old(p.Pending())), old(p.interested), index, pieceLength)
    ensures p.interested == (old(p.interested) || old(p.Has(index)))
  {
    ghost var l0 := LinkOf(p.Flags(), p.Pending());
    ghost var sent0, interested0 := p.sent, p.interested;
    if !p.Has(index) {
      return NoPiece;
    }
    ghost var interest := if interested0 then [] else InterestedFrame();
    if !p.interested {
      p.SendInterested();
    }
    assert p.sent == sent0 + interest && LinkOf(p.Flags(), p.Pending()) == l0;
    var wait := AwaitUnchokeUnbounded(p);
    if wait.WaitRaised? {
      assert SentAfterWarmup(l0, interested0, index, pieceLength) == interest + [];
      return Threw;
    }
    if wait.WaitsForever? {
      assert SentAfterWarmup(l0, interested0, index, pieceLength) == interest + [];
      return Hangs;
    }
    ghost var requests := Requests(index, pieceLength, 0);
    assert SentAfterWarmup(l0, interested0, index, pieceLength) == interest + requests;
    AppendAssoc(sent0, interest, requests);
    var blocks, crashed := RequestAndGather(p, index, pieceLength);
    if crashed {
      return Threw;
    }
    r := Conclude(blocks, pieceLength, hash, sha1);
  }

  /**
   * `download_piece`: the outcome and the peer's new state are those of
   * `PieceDownload`, and what was written is `SentBy`.
   */
  method DownloadPiece(p: Peer, index: nat, pieceLength: int, hash: seq<Byte>, sha1: seq<Byte> -> seq<Byte>)
    returns (r: Outcome)
    requires index < U32_LIMIT && pieceLength <= U32_LIMIT
    modifies p`sent, p`interested, p`incoming, p`peerChoking, p`peerInterested, p`bitfield
    ensures (LinkOf(p.Flags(), p.Pending()), r)
            == PieceDownload(LinkOf(old(p.Flags()), old(p.Pending())), index, pieceLength, hash, sha1)
    ensures p.sent == old(p.sent) + SentBy(LinkOf(old(p.Flags()), old(p.Pending())), old(p.interested), index, pieceLength)
    ensures p.interested == (old(p.interested) || Asks(LinkOf(old(p.Flags()), old(p.Pending())), index))
  {
    var crashed := SkipEarlyMessages(p);
    if crashed {
      assert p.sent == old(p.sent) + [];
      return Threw;
    }
    r := Attempt(p, index, pieceLength, hash, sha1);
  }

  // ---------------------------------------------------------------------
  // `download_from_peers`
  // ---------------------------------------------------------------------

  /** Every filled slot holds non-empty data with its piece's hash. */
  ghost predicate SlotsValid(t: Torrent, sha1: seq<Byte> -> seq<Byte>, slots: seq<Option<seq<Byte>>>)
  {
    forall i | 0 <= i < |slots| && slots[i].Some? :: slots[i].value != [] && Verified(t, sha1, i, slots[i].value)
  }

  /** Whether every slot is filled. */
  predicate AllFilled(slots: seq<Option<seq<Byte>>>)
  {
    forall i | 0 <= i < |slots| :: slots[i].Some?
  }

  /** Every slot filled in `before` holds the same data in `after`. */
  predicate KeepsFilled(before: seq<Option<seq<Byte>>>, after: seq<Option<seq<Byte>>>)
  {
    |after| == |before| && forall i | 0 <= i < |before| && before[i].Some? :: after[i] == before[i]
  }

  /** `peer_id` of `download_from_peers`: `-PY0001-` and twelve `0` bytes. */
  const SYNC_PEER_ID: seq<Byte> := [45, 80, 89, 48, 48, 48, 49, 45, 48, 48, 48, 48, 48, 48, 48, 48, 48, 48, 48, 48]

  /** What a peer object holds as the download functions see it: the link, `interested` and what was written. */
  datatype Session = Session(link: Link, interested: bool, written: seq<Byte>)

  function SessionOf(p: Peer): (s: Session)
    reads p
    ensures s.link == LinkOf(p.Flags(), p.Pending()) && s.interested == p.interested && s.written == p.sent
  {
    Session(LinkOf(p.Flags(), p.Pending()), p.interested, p.sent)
  }

  /** `download_piece` on a session: the new session and the outcome. */
  function PieceOn(t: Torrent, sha1: seq<Byte> -> seq<Byte>, s: Session, i: nat): (Session, Outcome)
    requires WireSized(t) && i < NumPieces(t)
  {
    var (next, r) := PieceDownload(s.link, i, PieceLength(t, i), PieceHash(t, i), sha1);
    (Session(next, s.interested || Asks(s.link, i), s.written + SentBy(s.link, s.interested, i, PieceLength(t, i))), r)
  }

  /**
   * The piece loop of `download_from_peers` from index i on: skip filled
   * slots, run `download_piece` on each empty one and store a non-empty
   * result; an exception or an endless wait stops it.
   */
  function FillFrom(t: Torrent, sha1: seq<Byte> -> seq<Byte>, s: Session, slots: seq<Option<seq<Byte>>>, i: nat)
    : (r: (Session, seq<Option<seq<Byte>>>, Option<Outcome>))
    requires WireSized(t) && |slots| == NumPieces(t) && i <= |slots|
    ensures |r.1| == |slots|
    decreases |slots| - i, 2
  {
    if i == |slots| then (s, slots, None)
    else if slots[i].Some? then FillFrom(t, sha1, s, slots, i + 1)
    else TryFrom(t, sha1, s, slots, i)
  }

  /** The piece loop on the empty slot i: `download_piece`, then what `Proceed` says. */
  function TryFrom(t: Torrent, sha1: seq<Byte> -> seq<Byte>, s: Session, slots: seq<Option<seq<Byte>>>, i: nat)
    : (r: (Session, seq<Option<seq<Byte>>>, Option<Outcome>))
    requires WireSized(t) && |slots| == NumPieces(t) && i < |slots|
    ensures |r.1| == |slots|
    decreases |slots| - i, 1
  {
    Proceed(t, sha1, PieceOn(t, sha1, s, i), slots, i)
  }

  /**
   * The piece loop once `download_piece` on slot i gave `step`: stop on an
   * exception or an endless wait; otherwise store a non-empty piece and go
   * on with the next slot.
   */
  function Proceed(t: Torrent, sha1: seq<Byte> -> seq<Byte>, step: (Session, Outcome), slots: seq<Option<seq<Byte>>>, i: nat)
    : (r: (Session, seq<Option<seq<Byte>>>, Option<Outcome>))
    requires WireSized(t) && |slots| == NumPieces(t) && i < |slots|
    ensures |r.1| == |slots|
    decreases |slots| - i, 0
  {
    var (after, r) := step;
    if r.Threw? || r.Hangs? then (after, slots, Some(r))
    else FillFrom(t, sha1, after, if r.Piece? && r.data != [] then slots[i := Some(r.data)] else slots, i + 1)
  }

  /** One peer of `download_from_peers`: connect, shake hands, then the piece loop. */
  function FillPeer(t: Torrent, sha1: seq<Byte> -> seq<Byte>, reachable: bool, infoHash: seq<Byte>, peerId: seq<Byte>,
                    s: Session, slots: seq<Option<seq<Byte>>>): (r: (Session, seq<Option<seq<Byte>>>, Option<Outcome>))
    requires WireSized(t) && |slots| == NumPieces(t)
    ensures |r.1| == |slots|
  {
    if !reachable then (s, slots, None)
    else
      var stream := s.link.stream;
      var written := s.written + HandshakeMessage(infoHash, peerId);
      if !Accepts(stream, infoHash) then
        var rest := if |stream| >= HANDSHAKE_LENGTH then stream[HANDSHAKE_LENGTH..] else [];
        (Session(Link(s.link.flags, rest), s.interested, written), slots, None)
      else FillFrom(t, sha1, Session(Link(s.link.flags, stream[HANDSHAKE_LENGTH..]), s.interested, written), slots, 0)
  }

  /** Whether a stream opens with a handshake answer that `handshake` accepts. */
  predicate Accepts(stream: seq<Byte>, infoHash: seq<Byte>)
  {
    |stream| >= HANDSHAKE_LENGTH && HandshakeAccepted(stream[..HANDSHAKE_LENGTH], infoHash)
  }

  /** A remote peer: whether it accepts connections, and what it will send, one `recv` segment at a time. */
  datatype Remote = Remote(reachable: bool, incoming: seq<seq<Byte>>)

  /** Whether a new peer object for the remote gets past `connect` and `handshake`. */
  predicate Served(r: Remote, infoHash: seq<Byte>)
  {
    r.reachable && Accepts(Join(r.incoming), infoHash)
  }

  /** The session of a new `BitTorrentPeer` for a remote. */
  function FreshSession(r: Remote): (s: Session)
    ensures s.link.flags == PeerFlags(true, false, None) && !s.interested && s.written == []
  {
    Session(Link(PeerFlags(true, false, None), Join(r.incoming)), false, [])
  }

  /**
   * `download_from_peers` from the given slots on: one new peer object per
   * remote, in order; stop once every slot is filled, and at once on an
   * exception or an endless wait.
   */
  function Run(t: Torrent, sha1: seq<Byte> -> seq<Byte>, infoHash: seq<Byte>, remotes: seq<Remote>,
               slots: seq<Option<seq<Byte>>>): (r: (seq<Option<seq<Byte>>>, RunEnd))
    requires WireSized(t) && |slots| == NumPieces(t)
    ensures |r.0| == |slots|
    decreases |remotes|
  {
    if remotes == [] then (slots, if AllFilled(slots) then Complete else Incomplete)
    else
      var (session, filled, aborted) := FillPeer(t, sha1, remotes[0].reachable, infoHash, SYNC_PEER_ID, FreshSession(remotes[0]), slots);
      if aborted.Some? then (filled, Aborted(aborted.value))
      else if Served(remotes[0], infoHash) && AllFilled(filled) then (filled, Complete)
      else Run(t, sha1, infoHash, remotes[1..], filled)
  }

  /**
   * What the piece loop from index i promises about its result r: every
   * slot stays valid, no filled slot changes and neither does any slot
   * before i, a slot left empty was empty, and the loop stops early only on
   * an exception or an endless wait, with some slot still empty.
   */
  ghost predicate FillKeeps(t: Torrent, sha1: seq<Byte> -> seq<Byte>, slots: seq<Option<seq<Byte>>>, i: nat,
                            r: (Session, seq<Option<seq<Byte>>>, Option<Outcome>))
  {
    SlotsValid(t, sha1, r.1) && KeepsFilled(slots, r.1)
    && (forall j | 0 <= j < i && j < |slots| :: r.1[j] == slots[j])
    && (forall j | 0 <= j < |slots| && r.1[j].None? :: slots[j].None?)
    && (r.2.Some? ==> (r.2.value.Threw? || r.2.value.Hangs?) && !AllFilled(r.1))
  }

  /**
   * The piece loop keeps what `FillKeeps` says; and with every slot from i
   * on filled it does nothing at all: the peer is asked for nothing.
   */
  lemma {:induction false} FillFromKeeps(t: Torrent, sha1: seq<Byte> -> seq<Byte>, s: Session, slots: seq<Option<seq<Byte>>>, i: nat)
    requires WireSized(t) && |slots| == NumPieces(t) && i <= |slots| && SlotsValid(t, sha1, slots)
    ensures FillKeeps(t, sha1, slots, i, FillFrom(t, sha1, s, slots, i))
    ensures (forall j | i <= j < |slots| :: slots[j].Some?) ==> FillFrom(t, sha1, s, slots, i) == (s, slots, None)
    decreases |slots| - i, 2
  {
    if i < |slots| {
      if slots[i].Some? {
        FillFromKeeps(t, sha1, s, slots, i + 1);
      } else {
        TryFromKeeps(t, sha1, s, slots, i);
      }
    }
  }

  /** Trying an empty slot keeps what `FillKeeps` says. */
  lemma {:induction false} TryFromKeeps(t: Torrent, sha1: seq<Byte> -> seq<Byte>, s: Session, slots: seq<Option<seq<Byte>>>, i: nat)
    requires WireSized(t) && |slots| == NumPieces(t) && i < |slots| && slots[i].None? && SlotsValid(t, sha1, slots)
    ensures FillKeeps(t, sha1, slots, i, TryFrom(t, sha1, s, slots, i))
    decreases |slots| - i, 1
  {
    PieceOnVerified(t, sha1, s, i);
    ProceedKeeps(t, sha1, PieceOn(t, sha1, s, i), slots, i);
  }

  /** Going on from an empty slot with a verified piece, or none, keeps what `FillKeeps` says. */
  lemma {:induction false} ProceedKeeps(t: Torrent, sha1: seq<Byte> -> seq<Byte>, step: (Session, Outcome), slots: seq<Option<seq<Byte>>>, i: nat)
    requires WireSized(t) && |slots| == NumPieces(t) && i < |slots| && slots[i].None? && SlotsValid(t, sha1, slots)
    requires step.1.Piece? ==> Verified(t, sha1, i, step.1.data)
    ensures FillKeeps(t, sha1, slots, i, Proceed(t, sha1, step, slots, i))
    decreases |slots| - i, 0
  {
    if step.1.Threw? || step.1.Hangs? {
      var res := Proceed(t, sha1, step, slots, i);
      assert res == (step.0, slots, Some(step.1));
      assert !AllFilled(res.1) by { assert res.1[i].None?; }
    } else {
      var r := step.1;
      var next := if r.Piece? && r.data != [] then slots[i := Some(r.data)] else slots;
      if r.Piece? && r.data != [] {
        StoreKeepsValid(t, sha1, slots, i, r.data);
      }
      assert Proceed(t, sha1, step, slots, i) == FillFrom(t, sha1, step.0, next, i + 1);
      FillFromKeeps(t, sha1, step.0, next, i + 1);
      FillKeepsBack(t, sha1, slots, next, i, FillFrom(t, sha1, step.0, next, i + 1));
    }
  }

  /** A piece `download_piece` returns for slot i has that piece's hash. */
  lemma PieceOnVerified(t: Torrent, sha1: seq<Byte> -> seq<Byte>, s: Session, i: nat)
    requires WireSized(t) && i < NumPieces(t)
    ensures var r := PieceOn(t, sha1, s, i).1; r.Piece? ==> Verified(t, sha1, i, r.data)
  {
    DownloadedPieceMatchesHash(s.link, i, PieceLength(t, i), PieceHash(t, i), sha1);
  }

  /** Storing a piece that has its hash keeps every slot valid. */
  lemma StoreKeepsValid(t: Torrent, sha1: seq<Byte> -> seq<Byte>, slots: seq<Option<seq<Byte>>>, i: nat, data: seq<Byte>)
    requires |slots| == NumPieces(t) && i < |slots| && SlotsValid(t, sha1, slots) && data != [] && Verified(t, sha1, i, data)
    ensures SlotsValid(t, sha1, slots[i := Some(data)])
  {
    var stored := slots[i := Some(data)];
    forall j | 0 <= j < |stored| && stored[j].Some?
      ensures stored[j].value != [] && Verified(t, sha1, j, stored[j].value)
    {
      if j != i {
        assert stored[j] == slots[j];
      }
    }
  }

  /** Filling slot i, then the loop from i + 1, keeps what `FillKeeps` says from i. */
  lemma FillKeepsBack(t: Torrent, sha1: seq<Byte> -> seq<Byte>, slots: seq<Option<seq<Byte>>>, next: seq<Option<seq<Byte>>>, i: nat,
                      res: (Session, seq<Option<seq<Byte>>>, Option<Outcome>))
    requires i < |slots| && slots[i].None? && |next| == |slots|
    requires forall j | 0 <= j < |slots| && j != i :: next[j] == slots[j]
    requires FillKeeps(t, sha1, next, i + 1, res)
    ensures FillKeeps(t, sha1, slots, i, res)
  {
  }

  /** The same for one peer, which changes nothing when it is unreachable. */
  lemma FillPeerKeeps(t: Torrent, sha1: seq<Byte> -> seq<Byte>, reachable: bool, infoHash: seq<Byte>, peerId: seq<Byte>,
                      s: Session, slots: seq<Option<seq<Byte>>>)
    requires WireSized(t) && |slots| == NumPieces(t) && SlotsValid(t, sha1, slots)
    ensures FillKeeps(t, sha1, slots, 0, FillPeer(t, sha1, reachable, infoHash, peerId, s, slots))
    ensures var (after, filled, aborted) := FillPeer(t, sha1, reachable, infoHash, peerId, s, slots);
      (AllFilled(slots) ==> filled == slots && aborted.None?)
      && (!reachable ==> after == s && filled == slots && aborted.None?)
  {
    if reachable {
      var stream := s.link.stream;
      if |stream| >= HANDSHAKE_LENGTH && HandshakeAccepted(stream[..HANDSHAKE_LENGTH], infoHash) {
        var written := s.written + HandshakeMessage(infoHash, peerId);
        FillFromKeeps(t, sha1, Session(Link(s.link.flags, stream[HANDSHAKE_LENGTH..]), s.interested, written), slots, 0);
      }
    }
  }

  /**
   * A run keeps every slot valid and never changes a filled slot; it is
   * complete exactly when it was not cut short and every slot is filled.
   */
  lemma {:induction false} RunKeeps(t: Torrent, sha1: seq<Byte> -> seq<Byte>, infoHash: seq<Byte>, remotes: seq<Remote>,
                                    slots: seq<Option<seq<Byte>>>)
    requires WireSized(t) && |slots| == NumPieces(t) && SlotsValid(t, sha1, slots)
    ensures var (filled, end) := Run(t, sha1, infoHash, remotes, slots);
      SlotsValid(t, sha1, filled) && KeepsFilled(slots, filled)
      && (end.Aborted? ==> end.cause.Threw? || end.cause.Hangs?)
      && (end.Complete? <==> !end.Aborted? && AllFilled(filled))
    decreases |remotes|
  {
    if remotes != [] {
      FillPeerKeeps(t, sha1, remotes[0].reachable, infoHash, SYNC_PEER_ID, FreshSession(remotes[0]), slots);
      var (session, filled, aborted) := FillPeer(t, sha1, remotes[0].reachable, infoHash, SYNC_PEER_ID, FreshSession(remotes[0]), slots);
      if aborted.None? && !(Served(remotes[0], infoHash) && AllFilled(filled)) {
        RunKeeps(t, sha1, infoHash, remotes[1..], filled);
      }
    }
  }

  /** The piece loop past the last slot. */
  lemma FillFromEnd(t: Torrent, sha1: seq<Byte> -> seq<Byte>, s: Session, slots: seq<Option<seq<Byte>>>)
    requires WireSized(t) && |slots| == NumPieces(t)
    ensures FillFrom(t, sha1, s, slots, |slots|) == (s, slots, None)
  {
  }

  /** The piece loop passes over a filled slot. */
  lemma FillFromSkip(t: Torrent, sha1: seq<Byte> -> seq<Byte>, s: Session, slots: seq<Option<seq<Byte>>>, i: nat)
    requires WireSized(t) && |slots| == NumPieces(t) && i < |slots| && slots[i].Some?
    ensures FillFrom(t, sha1, s, slots, i) == FillFrom(t, sha1, s, slots, i + 1)
  {
  }

  /** The piece loop on an empty slot tries it. */
  lemma FillFromTry(t: Torrent, sha1: seq<Byte> -> seq<Byte>, s: Session, slots: seq<Option<seq<Byte>>>, i: nat)
    requires WireSized(t) && |slots| == NumPieces(t) && i < |slots| && slots[i].None?
    ensures FillFrom(t, sha1, s, slots, i) == TryFrom(t, sha1, s, slots, i)
  {
  }

  /** The piece loop of `download_from_peers` on a connected peer: the new peer state, slots and what was written are those of `FillFrom`. */
  method FillPieces(p: Peer, t: Torrent, sha1: seq<Byte> -> seq<Byte>, slots: array<Option<seq<Byte>>>)
    returns (aborted: Option<Outcome>)
    requires WireSized(t) && slots.Length == NumPieces(t)
    modifies p, slots
    ensures (SessionOf(p), slots[..], aborted) == FillFrom(t, sha1, old(SessionOf(p)), old(slots[..]), 0)
  {
    ghost var goal := FillFrom(t, sha1, SessionOf(p), slots[..], 0);
    aborted := None;
    var i := 0;
    while i < slots.Length && aborted.None?
      invariant i <= slots.Length
      invariant aborted.None? ==> FillFrom(t, sha1, SessionOf(p), slots[..], i) == goal
      invariant aborted.Some? ==> (SessionOf(p), slots[..], aborted) == goal
    {
      aborted := FillSlot(p, t, sha1, slots, i);
      i := i + 1;
    }
    if aborted.None? {
      FillFromEnd(t, sha1, SessionOf(p), slots[..]);
    }
  }

  /**
   * One slot of the piece loop: a filled slot is skipped; for an empty one
   * `download_piece` runs and a non-empty result fills the slot. The loop
   * then stops on an exception or an endless wait (`aborted`) and goes on
   * with the next slot otherwise.
   */
  method FillSlot(p: Peer, t: Torrent, sha1: seq<Byte> -> seq<Byte>, slots: array<Option<seq<Byte>>>, i: nat)
    returns (aborted: Option<Outcome>)
    requires WireSized(t) && slots.Length == NumPieces(t) && i < slots.Length
    modifies p, slots
    ensures aborted.Some? ==> FillFrom(t, sha1, old(SessionOf(p)), old(slots[..]), i) == (SessionOf(p), slots[..], aborted)
    ensures aborted.None? ==> FillFrom(t, sha1, old(SessionOf(p)), old(slots[..]), i) == FillFrom(t, sha1, SessionOf(p), slots[..], i + 1)
  {
    ghost var before, cells := SessionOf(p), slots[..];
    if slots[i].Some? {
      FillFromSkip(t, sha1, before, cells, i);
      return None;
    }
    FillFromTry(t, sha1, before, cells, i);
    var r := DownloadPiece(p, i, PieceLength(t, i), PieceHash(t, i), sha1);
    assert (SessionOf(p), r) == PieceOn(t, sha1, before, i);
    assert TryFrom(t, sha1, before, cells, i) == Proceed(t, sha1, (SessionOf(p), r), cells, i);
    if r.Threw? || r.Hangs? {
      return Some(r);
    }
    if r.Piece? && r.data != [] {
      slots[i] := Some(r.data);
      assert slots[..] == cells[i := Some(r.data)];
    } else {
      assert slots[..] == cells;
    }
    return None;
  }

  /**
   * One peer of `download_from_peers`: connect, shake hands, then try
   * every piece whose slot is still empty, in index order, storing each
   * piece `download_piece` returns non-empty. `aborted` is the exception
   * or the endless wait that ends the whole run; `served` says whether the
   * peer got past `connect` and `handshake`. The new peer state, slots and
   * what was written are those of `FillPeer`.
   */
  method FillFromPeer(p: Peer, t: Torrent, sha1: seq<Byte> -> seq<Byte>, slots: array<Option<seq<Byte>>>)
    returns (aborted: Option<Outcome>, served: bool)
    requires WireSized(t) && slots.Length == NumPieces(t)
    modifies p, slots
    ensures (SessionOf(p), slots[..], aborted)
            == FillPeer(t, sha1, p.reachable, p.infoHash, p.peerId, old(SessionOf(p)), old(slots[..]))
    ensures served <==> p.reachable && Accepts(old(SessionOf(p)).link.stream, p.infoHash)
  {
    if !p.reachable {
      return None, false;
    }
    var accepted := p.Handshake();
    if !accepted {
      return None, false;
    }
    aborted := FillPieces(p, t, sha1, slots);
    served := true;
  }

  /**
   * `download_from_peers` on a torrent's metadata and info hash: one new
   * peer object per remote, tried in order, stopping early once a peer
   * that got past the handshake leaves every slot filled; an exception or an endless wait ends the run at once. The
   * slots and the end are those of `Run` from all-empty slots.
   */
  method DownloadFromPeers(t: Torrent, sha1: seq<Byte> -> seq<Byte>, infoHash: seq<Byte>, remotes: seq<Remote>)
    returns (slots: array<Option<seq<Byte>>>, end: RunEnd)
    requires WireSized(t)
    ensures fresh(slots) && slots.Length == NumPieces(t)
    ensures (slots[..], end) == Run(t, sha1, infoHash, remotes, seq(NumPieces(t), _ => None))
    ensures SlotsValid(t, sha1, slots[..])
    ensures end.Aborted? ==> end.cause.Threw? || end.cause.Hangs?
    ensures end.Complete? <==> !end.Aborted? && AllFilled(slots[..])
  {
    slots := new Option<seq<Byte>>[NumPieces(t)](_ => None);
    ghost var empty: seq<Option<seq<Byte>>> := seq(NumPieces(t), _ => None);
    assert slots[..] == empty;
    RunKeeps(t, sha1, infoHash, remotes, empty);
    ghost var goal := Run(t, sha1, infoHash, remotes, empty);
    for k := 0 to |remotes|
      invariant Run(t, sha1, infoHash, remotes[k..], slots[..]) == goal
    {
      var p := new Peer(infoHash, SYNC_PEER_ID, remotes[k].reachable, remotes[k].incoming);
      assert SessionOf(p) == FreshSession(remotes[k]);
      var aborted, served := FillFromPeer(p, t, sha1, slots);
      assert remotes[k..][1..] == remotes[k + 1..];
      if aborted.Some? {
        return slots, Aborted(aborted.value);
      }
      if served && AllFilled(slots[..]) {
        return slots, Complete;
      }
    }
    end := if AllFilled(slots[..]) then Complete else Incomplete;
  }
}
