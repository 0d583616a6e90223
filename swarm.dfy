/**
 * The asynchronous downloader: `download_piece_from_peer` driving one peer
 * object, and the `peer_worker` loop that shares the torrent's pieces out
 * through a claim table (`downloaded_pieces` and `pieces_in_progress`).
 * Workers run one at a time here; SHA-1 is a function the downloader is given.
 */
module Swarm {
  import opened Binary
  import opened PeerWire
  import opened PeerSession
  import opened Layout
  import opened Fetching

  // ---------------------------------------------------------------------
  // One piece from one peer
  // ---------------------------------------------------------------------

  /** The state of a peer object as the fetch functions see it. */
  function LinkOf(f: PeerFlags, stream: seq<Byte>): (l: Link)
    ensures l.flags == f && l.stream == stream
  {
    Link(f, stream)
  }

  /**
   * The bitfield wait of `peer_worker`: up to ten receives, each message
   * handled, stopping as soon as a bitfield is known; `crashed` is the
   * exception `handle_message` raised.
   */
  method AwaitBitfield(p: Peer) returns (crashed: bool)
    modifies p`incoming, p`peerChoking, p`peerInterested, p`bitfield
    ensures (LinkOf(p.Flags(), p.Pending()), crashed)
            == WaitBitfield(LinkOf(old(p.Flags()), old(p.Pending())), BITFIELD_POLLS)
  {
    ghost var goal := WaitBitfield(LinkOf(p.Flags(), p.Pending()), BITFIELD_POLLS);
    var polls := 0;
    while polls < BITFIELD_POLLS
      invariant polls <= BITFIELD_POLLS
      invariant WaitBitfield(LinkOf(p.Flags(), p.Pending()), BITFIELD_POLLS - polls) == goal
    {
      ghost var before := LinkOf(p.Flags(), p.Pending());
      var m := p.ReceiveMessage();
      if m.Message? {
        var e := p.HandleMessage(m);
        if e.Malformed? {
          return true;
        }
      }
      assert Poll(before).0 == LinkOf(p.Flags(), p.Pending());
      if p.bitfield.Some? {
        return false;
      }
      polls := polls + 1;
    }
    return false;
  }

  /**
   * The unchoke wait of `download_piece_from_peer`: while the peer chokes,
   * receive and handle one message, for at most 51 rounds.
   */
  method AwaitUnchoke(p: Peer) returns (crashed: bool)
    modifies p`incoming, p`peerChoking, p`peerInterested, p`bitfield
    ensures (LinkOf(p.Flags(), p.Pending()), crashed)
            == WaitUnchoke(LinkOf(old(p.Flags()), old(p.Pending())), UNCHOKE_POLLS)
  {
    ghost var goal := WaitUnchoke(LinkOf(p.Flags(), p.Pending()), UNCHOKE_POLLS);
    var polls := 0;
    while p.peerChoking && polls < UNCHOKE_POLLS
      invariant polls <= UNCHOKE_POLLS
      invariant WaitUnchoke(LinkOf(p.Flags(), p.Pending()), UNCHOKE_POLLS - polls) == goal
    {
      ghost var before := LinkOf(p.Flags(), p.Pending());
      var m := p.ReceiveMessage();
      if m.Message? {
        var e := p.HandleMessage(m);
        if e.Malformed? {
          return true;
        }
      }
      assert Poll(before).0 == LinkOf(p.Flags(), p.Pending());
      polls := polls + 1;
    }
    return false;
  }

  /**
   * The request loop: one request per 16 KiB block of the piece, in
   * ascending order of offset, the last one cut to the piece's end.
   */
  method RequestBlocks(p: Peer, index: nat, pieceLength: int) returns (needed: seq<Span>)
    requires index < U32_LIMIT && pieceLength <= U32_LIMIT
    modifies p`sent
    ensures needed == BlockPlan(pieceLength)
    ensures p.sent == old(p.sent) + Requests(index, pieceLength, 0)
  {
    ghost var total := p.sent + Requests(index, pieceLength, 0);
    needed := [];
    var begin: nat := 0;
    while begin < pieceLength
      invariant needed + PlanFrom(pieceLength, begin) == BlockPlan(pieceLength)
      invariant p.sent + Requests(index, pieceLength, begin) == total
      decreases pieceLength - begin
    {
      var length := Min(BLOCK_SIZE, pieceLength - begin);
      ghost var frame := RequestFrame(index, begin, length);
      ghost var later := Requests(index, pieceLength, begin + BLOCK_SIZE);
      assert Requests(index, pieceLength, begin) == frame + later;
      AppendAssoc(p.sent, frame, later);
      p.SendRequest(index, begin, length);
      PlanStep(pieceLength, begin, needed);
      needed := needed + [Span(begin, length)];
      begin := begin + BLOCK_SIZE;
    }
    assert needed + [] == needed;
  }

  /** Taking the next block of the plan. */
  lemma PlanStep(pieceLength: int, begin: nat, done: seq<Span>)
    requires begin < pieceLength && done + PlanFrom(pieceLength, begin) == BlockPlan(pieceLength)
    ensures (done + [Span(begin, Min(BLOCK_SIZE, pieceLength - begin))]) + PlanFrom(pieceLength, begin + BLOCK_SIZE)
            == BlockPlan(pieceLength)
  {
    var span := Span(begin, Min(BLOCK_SIZE, pieceLength - begin));
    assert PlanFrom(pieceLength, begin) == [span] + PlanFrom(pieceLength, begin + BLOCK_SIZE);
    assert (done + [span]) + PlanFrom(pieceLength, begin + BLOCK_SIZE) == done + PlanFrom(pieceLength, begin);
  }

  /**
   * The collection loop of `download_piece_from_peer`: blocks of the piece
   * are stored by offset until `needed` offsets are filled or a hundred
   * empty receives in a row have passed.
   */
  method CollectBlocks(p: Peer, index: nat, needed: nat) returns (r: Fetch)
    modifies p`incoming, p`peerChoking, p`peerInterested, p`bitfield
    ensures (LinkOf(p.Flags(), p.Pending()), r)
            == Collect(LinkOf(old(p.Flags()), old(p.Pending())), index, needed, map[], 0)
  {
    ghost var goal := Collect(LinkOf(p.Flags(), p.Pending()), index, needed, map[], 0);
    var data: map<int, seq<Byte>> := map[];
    var counter := 0;
    while |data| < needed && counter < MAX_TIMEOUT
      invariant counter <= MAX_TIMEOUT
      invariant Collect(LinkOf(p.Flags(), p.Pending()), index, needed, data, counter) == goal
      decreases |p.Pending()|, MAX_TIMEOUT - counter
    {
      ghost var before := LinkOf(p.Flags(), p.Pending());
      var m := p.ReceiveMessage();
      if m.NoMessage? {
        assert Poll(before) == (LinkOf(p.Flags(), p.Pending()), m, NoEvent);
        counter := counter + 1;
        continue;
      }
      var e := p.HandleMessage(m);
      ghost var after := LinkOf(p.Flags(), p.Pending());
      assert Poll(before) == (after, m, e);
      if e.Malformed? {
        assert Collect(before, index, needed, data, counter) == (after, Crashed);
        return Crashed;
      }
      if e.Block? && e.index == index {
        assert Collect(before, index, needed, data, counter) == Collect(after, index, needed, data[e.begin := e.block], 0);
        data := data[e.begin := e.block];
        counter := 0;
      } else {
        assert Collect(before, index, needed, data, counter) == Collect(after, index, needed, data, counter);
      }
    }
    if |data| < needed {
      return Failed;
    }
    return Blocks(data);
  }

  /**
   * What `download_piece_from_peer` writes to a peer with the given link:
   * nothing if the peer lacks the piece; otherwise `interested` unless it
   * was sent before, then what `SentOnceInterested` says.
   */
  function Sent(l: Link, interested: bool, index: nat, pieceLength: int): seq<Byte>
    requires index < U32_LIMIT && pieceLength <= U32_LIMIT
  {
    if !HasPiece(l.flags.bitfield, index) then []
    else (if interested then [] else InterestedFrame()) + SentOnceInterested(l, index, pieceLength)
  }

  /** The requests for every block of the piece if the peer unchoked in time, and nothing otherwise. */
  function SentOnceInterested(l: Link, index: nat, pieceLength: int): seq<Byte>
    requires index < U32_LIMIT && pieceLength <= U32_LIMIT
  {
    var (w, crashed) := WaitUnchoke(l, UNCHOKE_POLLS);
    if crashed || w.flags.peerChoking then [] else Requests(index, pieceLength, 0)
  }

  /**
   * `download_piece_from_peer`: the outcome and the peer's new state are
   * those of `FetchPiece`, and what was written is `Sent`.
   */
  method DownloadPieceFromPeer(p: Peer, index: nat, pieceLength: int) returns (r: Fetch)
    requires index < U32_LIMIT && pieceLength <= U32_LIMIT
    modifies p`sent, p`interested, p`incoming, p`peerChoking, p`peerInterested, p`bitfield
    ensures (LinkOf(p.Flags(), p.Pending()), r)
            == FetchPiece(LinkOf(old(p.Flags()), old(p.Pending())), index, pieceLength)
    ensures p.sent == old(p.sent) + Sent(LinkOf(old(p.Flags()), old(p.Pending())), old(p.interested), index, pieceLength)
    ensures p.interested == (old(p.interested) || old(p.Has(index)))
  {
    ghost var l0 := LinkOf(p.Flags(), p.Pending());
    ghost var sent0, interested0 := p.sent, p.interested;
    if !p.Has(index) {
      return Failed;
    }
    ghost var interest := if interested0 then [] else InterestedFrame();
    if !p.interested {
      p.SendInterested();
    }
    assert p.sent == sent0 + interest && LinkOf(p.Flags(), p.Pending()) == l0;
    r := WaitAndFetch(p, index, pieceLength);
    AppendAssoc(sent0, interest, SentOnceInterested(l0, index, pieceLength));
  }

  /** `download_piece_from_peer` once interest is declared: wait for an unchoke, then request and collect. */
  method WaitAndFetch(p: Peer, index: nat, pieceLength: int) returns (r: Fetch)
    requires index < U32_LIMIT && pieceLength <= U32_LIMIT
    modifies p`sent, p`incoming, p`peerChoking, p`peerInterested, p`bitfield
    ensures (LinkOf(p.Flags(), p.Pending()), r)
            == FetchOnceInterested(LinkOf(old(p.Flags()), old(p.Pending())), index, pieceLength)
    ensures p.sent == old(p.sent) + SentOnceInterested(LinkOf(old(p.Flags()), old(p.Pending())), index, pieceLength)
  {
    var crashed := AwaitUnchoke(p);
    if crashed {
      assert p.sent == old(p.sent) + [];
      return Crashed;
    }
    if p.peerChoking {
      assert p.sent == old(p.sent) + [];
      return Failed;
    }
    r := RequestAndCollect(p, index, pieceLength);
  }

  /** The part of `download_piece_from_peer` after the peer has unchoked: request every block, then collect. */
  method RequestAndCollect(p: Peer, index: nat, pieceLength: int) returns (r: Fetch)
    requires index < U32_LIMIT && pieceLength <= U32_LIMIT
    modifies p`sent, p`incoming, p`peerChoking, p`peerInterested, p`bitfield
    ensures (LinkOf(p.Flags(), p.Pending()), r)
            == Collect(LinkOf(old(p.Flags()), old(p.Pending())), index, |BlockPlan(pieceLength)|, map[], 0)
    ensures p.sent == old(p.sent) + Requests(index, pieceLength, 0)
  {
    var needed := RequestBlocks(p, index, pieceLength);
    r := CollectBlocks(p, index, |needed|);
  }

  /**
   * The input that makes `handle_message` raise inside the collection
   * loop: an unchoked peer holding piece 0 answers with a piece message of
   * three payload bytes.
   */
  lemma ShortPieceMessageRaises()
    ensures var f := PeerFlags(false, false, Some([128]));
      FetchPiece(Link(f, Frame(PIECE, [0, 0, 0])), 0, 1) == (Link(f, []), Crashed)
  {
    var f := PeerFlags(false, false, Some([128]));
    assert HasPiece(f.bitfield, 0) by {
      assert ShiftRight(128, 7) == 1;
    }
    ReadFrameOfFrame(PIECE, [0, 0, 0], []);
    assert Frame(PIECE, [0, 0, 0]) + [] == Frame(PIECE, [0, 0, 0]);
    PlanCount(1);
  }

  // ---------------------------------------------------------------------
  // The claim table
  // ---------------------------------------------------------------------

  /** `downloaded_pieces` (verified data by index) and `pieces_in_progress` (claimed indices). */
  datatype Claims = Claims(downloaded: map<nat, seq<Byte>>, inProgress: set<nat>)

  /**
   * Every stored piece is an index of the torrent whose data has the
   * piece's hash, and every claimed piece is an index not yet stored.
   */
  ghost predicate ClaimsValid(t: Torrent, sha1: seq<Byte> -> seq<Byte>, c: Claims)
  {
    (forall i | i in c.downloaded :: i < NumPieces(t) && Verified(t, sha1, i, c.downloaded[i]))
    && (forall i | i in c.inProgress :: i < NumPieces(t) && i !in c.downloaded)
  }

  /** The selection test of `peer_worker`: a piece nobody has stored or claimed, which the peer has. */
  predicate Eligible(t: Torrent, c: Claims, bits: Option<seq<Byte>>, i: nat)
  {
    i < NumPieces(t) && i !in c.downloaded && i !in c.inProgress && HasPiece(bits, i)
  }

  /** The first eligible piece from index `k` on, if any. */
  function FirstEligibleFrom(t: Torrent, c: Claims, bits: Option<seq<Byte>>, k: nat): (r: Option<nat>)
    ensures r.Some? ==> k <= r.value && Eligible(t, c, bits, r.value)
    ensures forall j | k <= j && (r.None? || j < r.value) :: !Eligible(t, c, bits, j)
    decreases NumPieces(t) - k
  {
    if k >= NumPieces(t) then None
    else if Eligible(t, c, bits, k) then Some(k)
    else FirstEligibleFrom(t, c, bits, k + 1)
  }

  /** The lowest eligible piece, or None when no piece is eligible. */
  function FirstEligible(t: Torrent, c: Claims, bits: Option<seq<Byte>>): (r: Option<nat>)
    ensures r.Some? ==> Eligible(t, c, bits, r.value) && forall j: nat | j < r.value :: !Eligible(t, c, bits, j)
    ensures r.None? <==> forall j :: !Eligible(t, c, bits, j)
  {
    FirstEligibleFrom(t, c, bits, 0)
  }

  /**
   * The bookkeeping once an attempt on a claimed piece has ended: a
   * non-empty set of blocks whose assembly has the piece's hash is stored;
   * whatever the outcome, the claim is given up.
   */
  function Settle(t: Torrent, sha1: seq<Byte> -> seq<Byte>, c: Claims, idx: nat, result: Fetch): Claims
  {
    if result.Blocks? && result.blocks != map[] && Verified(t, sha1, idx, Assemble(result.blocks))
    then Claims(c.downloaded[idx := Assemble(result.blocks)], c.inProgress - {idx})
    else Claims(c.downloaded, c.inProgress - {idx})
  }

  /**
   * The bookkeeping as `peer_worker` does it: when `handle_message` raises,
   * the handler around the loop ends the worker without giving the claim up.
   */
  function SettleAsWritten(t: Torrent, sha1: seq<Byte> -> seq<Byte>, c: Claims, idx: nat, result: Fetch): Claims
  {
    if result.Crashed? then c else Settle(t, sha1, c, idx, result)
  }

  /** The two agree on every outcome except the exception. */
  lemma SettleAgreesUnlessRaised(t: Torrent, sha1: seq<Byte> -> seq<Byte>, c: Claims, idx: nat, result: Fetch)
    requires !result.Crashed?
    ensures SettleAsWritten(t, sha1, c, idx, result) == Settle(t, sha1, c, idx, result)
  {
  }

  /** The indices below n. */
  function Indices(n: nat): (r: set<nat>)
    ensures forall i: nat :: i in r <==> i < n
    ensures |r| == n
  {
    if n == 0 then {} else Indices(n - 1) + {n - 1}
  }

  lemma {:induction false} SubsetSize(a: set<nat>, b: set<nat>)
    requires a <= b
    ensures |a| <= |b|
    decreases b
  {
    if a != {} {
      var x :| x in a;
      SubsetSize(a - {x}, b - {x});
    }
  }

  /** While a piece is claimed and not stored, fewer pieces are stored than the torrent has. */
  lemma ClaimedPieceKeepsDownloadOpen(t: Torrent, sha1: seq<Byte> -> seq<Byte>, c: Claims, idx: nat)
    requires ClaimsValid(t, sha1, c) && idx in c.inProgress
    ensures |c.downloaded| < NumPieces(t)
  {
    var n := NumPieces(t);
    SubsetSize(c.downloaded.Keys, Indices(n) - {idx});
  }

  /** With as many pieces stored as the torrent has, every piece is stored. */
  lemma FullTable(t: Torrent, sha1: seq<Byte> -> seq<Byte>, c: Claims)
    requires ClaimsValid(t, sha1, c) && |c.downloaded| >= NumPieces(t)
    ensures forall i | 0 <= i < NumPieces(t) :: i in c.downloaded
  {
    var n := NumPieces(t);
    forall i | 0 <= i < n
      ensures i in c.downloaded
    {
      if i !in c.downloaded {
        SubsetSize(c.downloaded.Keys, Indices(n) - {i});
      }
    }
  }

  /**
   * Settling an attempt keeps the table valid and always gives the claim
   * up; the piece is stored exactly when its blocks were received and
   * verified, and no other piece changes.
   */
  lemma SettleReleasesClaim(t: Torrent, sha1: seq<Byte> -> seq<Byte>, c: Claims, idx: nat, result: Fetch)
    requires ClaimsValid(t, sha1, c) && idx in c.inProgress
    ensures var r := Settle(t, sha1, c, idx, result);
      ClaimsValid(t, sha1, r) && r.inProgress == c.inProgress - {idx}
      && (idx in r.downloaded <==> result.Blocks? && result.blocks != map[] && Verified(t, sha1, idx, Assemble(result.blocks)))
      && (idx in r.downloaded ==> r.downloaded[idx] == Assemble(result.blocks))
      && (forall i | i != idx :: (i in r.downloaded <==> i in c.downloaded))
      && (forall i | i in c.downloaded :: r.downloaded[i] == c.downloaded[i])
  {
  }

  /**
   * After the exception the as-written bookkeeping keeps the piece claimed
   * by a worker that has stopped: the piece is never eligible again,
   * settling any other piece keeps it claimed, and the table never holds
   * every piece, so the remaining workers' loops never end.
   */
  lemma RaisedAttemptLeaksClaim(t: Torrent, sha1: seq<Byte> -> seq<Byte>, c: Claims, idx: nat)
    requires ClaimsValid(t, sha1, c) && idx in c.inProgress
    ensures var r := SettleAsWritten(t, sha1, c, idx, Crashed);
      idx in r.inProgress && idx !in r.downloaded
      && (forall bits :: !Eligible(t, r, bits, idx))
      && (forall j: nat, res: Fetch | j != idx :: idx in SettleAsWritten(t, sha1, r, j, res).inProgress)
      && |r.downloaded| < NumPieces(t)
  {
    ClaimedPieceKeepsDownloadOpen(t, sha1, c, idx);
  }

  /** A claimed piece is not handed to another worker, whatever that worker's peer has. */
  lemma ClaimExcludesOthers(t: Torrent, sha1: seq<Byte> -> seq<Byte>, c: Claims, bits: Option<seq<Byte>>, other: Option<seq<Byte>>)
    requires ClaimsValid(t, sha1, c) && FirstEligible(t, c, bits).Some?
    ensures var i := FirstEligible(t, c, bits).value;
      var claimed := Claims(c.downloaded, c.inProgress + {i});
      ClaimsValid(t, sha1, claimed) && FirstEligible(t, claimed, other) != Some(i)
  {
  }

  /** The subset of `TorrentDownloader` that the workers share. */
  class Downloader {
    const torrent: Torrent
    /** `hashlib.sha1(...).digest()`. */
    const sha1: seq<Byte> -> seq<Byte>
    var downloaded: map<nat, seq<Byte>>
    var inProgress: set<nat>

    function Table(): Claims
      reads this
    {
      Claims(downloaded, inProgress)
    }

    ghost predicate Valid()
      reads this
    {
      ClaimsValid(torrent, sha1, Table())
    }

    constructor (torrent: Torrent, sha1: seq<Byte> -> seq<Byte>)
      ensures this.torrent == torrent && this.sha1 == sha1
      ensures downloaded == map[] && inProgress == {} && Valid()
    {
      this.torrent := torrent;
      this.sha1 := sha1;
      downloaded := map[];
      inProgress := {};
    }

    /**
     * The selection loop of `peer_worker`: scan the indices upwards and
     * claim the first eligible one, checking again (as under the piece's
     * lock) that nobody claimed it meanwhile.
     */
    method SelectAndClaim(bits: Option<seq<Byte>>) returns (idx: Option<nat>)
      requires Valid()
      modifies this`inProgress
      ensures idx == FirstEligible(torrent, old(Table()), bits)
      ensures inProgress == if idx.Some? then old(inProgress) + {idx.value} else old(inProgress)
      ensures Valid()
    {
      ghost var c := Table();
      for i := 0 to NumPieces(torrent)
        invariant Table() == c
        invariant FirstEligibleFrom(torrent, c, bits, i) == FirstEligible(torrent, c, bits)
      {
        if i !in downloaded && i !in inProgress && HasPiece(bits, i) {
          if i !in inProgress {
            inProgress := inProgress + {i};
            return Some(i);
          }
        }
      }
      return None;
    }

    /** Storing a verified piece and giving its claim up. */
    method Complete(idx: nat, piece: seq<Byte>)
      modifies this`downloaded, this`inProgress
      ensures downloaded == old(downloaded)[idx := piece]
      ensures inProgress == old(inProgress) - {idx}
    {
      downloaded := downloaded[idx := piece];
      inProgress := inProgress - {idx};
    }

    /** Giving a claim up: `pieces_in_progress.discard(idx)`. */
    method Release(idx: nat)
      modifies this`inProgress
      ensures inProgress == old(inProgress) - {idx}
    {
      inProgress := inProgress - {idx};
    }

    /**
     * The end of an attempt in `peer_worker`: assemble non-empty blocks in
     * order of offset, store the piece if its hash matches, and give the
     * claim up in every case.
     */
    method FinishAttempt(idx: nat, result: Fetch)
      requires Valid() && idx in inProgress
      modifies this`downloaded, this`inProgress
      ensures Table() == Settle(torrent, sha1, old(Table()), idx, result)
      ensures Valid()
    {
      SettleReleasesClaim(torrent, sha1, Table(), idx, result);
      if result.Blocks? && result.blocks != map[] {
        var piece := Assemble(result.blocks);
        if Verified(torrent, sha1, idx, piece) {
          Complete(idx, piece);
        } else {
          Release(idx);
        }
      } else {
        Release(idx);
      }
    }
  }

  // ---------------------------------------------------------------------
  // The worker
  // ---------------------------------------------------------------------

  /** Piece indices, offsets and lengths fit the 32-bit fields of a request. */
  predicate WireSized(t: Torrent)
  {
    NumPieces(t) <= U32_LIMIT && forall i | 0 <= i < NumPieces(t) :: PieceLength(t, i) <= U32_LIMIT
  }

  /** How a worker ends. */
  datatype WorkerEnd =
    | NotConnected   // `connect` failed
    | Rejected       // the handshake failed
    | Raised         // `handle_message` raised
    | AllDone        // every piece is stored
    | RoundsSpent    // the bound on loop rounds was reached

  /** What a worker and its peer object hold between rounds: the claim table, the link, `interested` and what was written. */
  datatype WorkerState = WorkerState(table: Claims, link: Link, interested: bool, written: seq<Byte>)

  /** The worker state of a downloader and a peer object. */
  function StateOf(d: Downloader, p: Peer): (s: WorkerState)
    reads d, p
    ensures s.table == d.Table() && s.link == LinkOf(p.Flags(), p.Pending())
    ensures s.interested == p.interested && s.written == p.sent
  {
    WorkerState(d.Table(), LinkOf(p.Flags(), p.Pending()), p.interested, p.sent)
  }

  /**
   * One round of the worker's loop: claim the first piece the peer can
   * serve, fetch it and settle the attempt; with nothing eligible, nothing
   * changes. The flag is the exception `handle_message` raised.
   */
  function Round(t: Torrent, sha1: seq<Byte> -> seq<Byte>, s: WorkerState): (WorkerState, bool)
    requires WireSized(t)
  {
    match FirstEligible(t, s.table, s.link.flags.bitfield)
    case None => (s, false)
    case Some(i) =>
      assert i < NumPieces(t) && PieceLength(t, i) <= U32_LIMIT;
      var (next, result) := FetchPiece(s.link, i, PieceLength(t, i));
      var claimed := Claims(s.table.downloaded, s.table.inProgress + {i});
      (WorkerState(Settle(t, sha1, claimed, i, result), next,
                   s.interested || HasPiece(s.link.flags.bitfield, i),
                   s.written + Sent(s.link, s.interested, i, PieceLength(t, i))),
       result.Crashed?)
  }

  /** The worker's loop for at most n rounds: it runs while pieces are missing and stops on the exception. */
  function Rounds(t: Torrent, sha1: seq<Byte> -> seq<Byte>, s: WorkerState, n: nat): (WorkerState, WorkerEnd)
    requires WireSized(t)
    decreases n
  {
    if |s.table.downloaded| >= NumPieces(t) then (s, AllDone)
    else if n == 0 then (s, RoundsSpent)
    else
      var (next, raised) := Round(t, sha1, s);
      if raised then (next, Raised) else Rounds(t, sha1, next, n - 1)
  }

  /**
   * `peer_worker` on a peer that accepts connections when `reachable`:
   * the handshake, the bitfield wait, then at most `rounds` rounds.
   */
  function Worker(t: Torrent, sha1: seq<Byte> -> seq<Byte>, reachable: bool, infoHash: seq<Byte>, peerId: seq<Byte>,
                  s: WorkerState, rounds: nat): (WorkerState, WorkerEnd)
    requires WireSized(t)
  {
    if !reachable then (s, NotConnected)
    else
      var stream := s.link.stream;
      var written := s.written + HandshakeMessage(infoHash, peerId);
      if |stream| < HANDSHAKE_LENGTH || !HandshakeAccepted(stream[..HANDSHAKE_LENGTH], infoHash) then
        var rest := if |stream| >= HANDSHAKE_LENGTH then stream[HANDSHAKE_LENGTH..] else [];
        (WorkerState(s.table, Link(s.link.flags, rest), s.interested, written), Rejected)
      else
        var (l, crashed) := WaitBitfield(Link(s.link.flags, stream[HANDSHAKE_LENGTH..]), BITFIELD_POLLS);
        var ready := WorkerState(s.table, l, s.interested, written);
        if crashed then (ready, Raised) else Rounds(t, sha1, ready, rounds)
  }

  /** Every piece stored in `c` is still stored, unchanged, in `r`. */
  predicate KeepsStored(c: Claims, r: Claims)
  {
    forall i | i in c.downloaded :: i in r.downloaded && r.downloaded[i] == c.downloaded[i]
  }

  /**
   * A round keeps the table valid with the same claims and every stored
   * piece. With nothing eligible it changes nothing; otherwise it tries the
   * first eligible piece, which ends up stored exactly when the fetched
   * blocks verify, and no other piece changes.
   */
  lemma RoundKeepsTable(t: Torrent, sha1: seq<Byte> -> seq<Byte>, s: WorkerState)
    requires WireSized(t) && ClaimsValid(t, sha1, s.table)
    ensures var (r, raised) := Round(t, sha1, s);
      ClaimsValid(t, sha1, r.table) && r.table.inProgress == s.table.inProgress && KeepsStored(s.table, r.table)
      && (FirstEligible(t, s.table, s.link.flags.bitfield).None? ==> r == s && !raised)
      && (FirstEligible(t, s.table, s.link.flags.bitfield).Some? ==>
            var i := FirstEligible(t, s.table, s.link.flags.bitfield).value;
            var result := FetchPiece(s.link, i, PieceLength(t, i)).1;
            i !in s.table.downloaded
            && (i in r.table.downloaded <==> result.Blocks? && result.blocks != map[] && Verified(t, sha1, i, Assemble(result.blocks)))
            && (forall j | j != i :: (j in r.table.downloaded <==> j in s.table.downloaded))
            && raised == result.Crashed?)
  {
    var bits := s.link.flags.bitfield;
    if FirstEligible(t, s.table, bits).Some? {
      var i := FirstEligible(t, s.table, bits).value;
      var claimed := Claims(s.table.downloaded, s.table.inProgress + {i});
      ClaimExcludesOthers(t, sha1, s.table, bits, bits);
      SettleReleasesClaim(t, sha1, claimed, i, FetchPiece(s.link, i, PieceLength(t, i)).1);
      assert claimed.inProgress - {i} == s.table.inProgress;
    }
  }

  /**
   * The rounds keep the table valid with the same claims and every stored
   * piece, and they end with every piece stored, with the bound spent, or
   * on the exception.
   */
  lemma {:induction false} RoundsKeepTable(t: Torrent, sha1: seq<Byte> -> seq<Byte>, s: WorkerState, n: nat)
    requires WireSized(t) && ClaimsValid(t, sha1, s.table)
    ensures var (r, end) := Rounds(t, sha1, s, n);
      ClaimsValid(t, sha1, r.table) && r.table.inProgress == s.table.inProgress && KeepsStored(s.table, r.table)
      && end in {AllDone, RoundsSpent, Raised}
      && (end == AllDone ==> forall i | 0 <= i < NumPieces(t) :: i in r.table.downloaded)
    decreases n
  {
    if |s.table.downloaded| >= NumPieces(t) {
      FullTable(t, sha1, s.table);
    } else if n > 0 {
      var (next, raised) := Round(t, sha1, s);
      RoundKeepsTable(t, sha1, s);
      if !raised {
        RoundsKeepTable(t, sha1, next, n - 1);
      }
    }
  }

  /**
   * A worker keeps the table valid with the same claims and every stored
   * piece; it reports every piece stored only when they are; and it ends
   * `NotConnected` exactly when the peer is unreachable, changing nothing.
   */
  lemma WorkerKeepsTable(t: Torrent, sha1: seq<Byte> -> seq<Byte>, reachable: bool, infoHash: seq<Byte>, peerId: seq<Byte>,
                         s: WorkerState, rounds: nat)
    requires WireSized(t) && ClaimsValid(t, sha1, s.table)
    ensures var (r, end) := Worker(t, sha1, reachable, infoHash, peerId, s, rounds);
      ClaimsValid(t, sha1, r.table) && r.table.inProgress == s.table.inProgress && KeepsStored(s.table, r.table)
      && (end == AllDone ==> forall i | 0 <= i < NumPieces(t) :: i in r.table.downloaded)
      && (end == NotConnected <==> !reachable)
      && (!reachable ==> r == s)
  {
    if reachable {
      var stream := s.link.stream;
      if |stream| >= HANDSHAKE_LENGTH && HandshakeAccepted(stream[..HANDSHAKE_LENGTH], infoHash) {
        var written := s.written + HandshakeMessage(infoHash, peerId);
        var (l, crashed) := WaitBitfield(Link(s.link.flags, stream[HANDSHAKE_LENGTH..]), BITFIELD_POLLS);
        if !crashed {
          RoundsKeepTable(t, sha1, WorkerState(s.table, l, s.interested, written), rounds);
        }
      }
    }
  }

  /**
   * `peer_worker`, for at most `rounds` rounds of its loop: connect,
   * handshake, wait for the bitfield, then claim, fetch and settle pieces
   * until every piece is stored. The new table, peer state and what was
   * written are those of `Worker`.
   */
  method PeerWorker(d: Downloader, p: Peer, rounds: nat) returns (end: WorkerEnd)
    requires d.Valid() && WireSized(d.torrent)
    modifies d`downloaded, d`inProgress
    modifies p`sent, p`interested, p`incoming, p`peerChoking, p`peerInterested, p`bitfield
    ensures (StateOf(d, p), end) == Worker(d.torrent, d.sha1, p.reachable, p.infoHash, p.peerId, old(StateOf(d, p)), rounds)
    ensures d.Valid() && d.inProgress == old(d.inProgress)
    ensures KeepsStored(old(d.Table()), d.Table())
    ensures end == AllDone ==> forall i | 0 <= i < NumPieces(d.torrent) :: i in d.downloaded
    ensures !p.reachable ==> end == NotConnected && StateOf(d, p) == old(StateOf(d, p)) && p.incoming == old(p.incoming)
  {
    ghost var s0 := StateOf(d, p);
    WorkerKeepsTable(d.torrent, d.sha1, p.reachable, p.infoHash, p.peerId, s0, rounds);
    if !p.reachable {
      return NotConnected;
    }
    var ok := p.Handshake();
    if !ok {
      return Rejected;
    }
    var crashed := AwaitBitfield(p);
    if crashed {
      return Raised;
    }
    end := WorkerRounds(d, p, rounds);
  }

  /**
   * The loop of `peer_worker` once the bitfield has come, for at most
   * `rounds` rounds: it runs while pieces are missing and stops on the
   * exception. The new table, peer state and what was written are those of
   * `Rounds`.
   */
  method WorkerRounds(d: Downloader, p: Peer, rounds: nat) returns (end: WorkerEnd)
    requires d.Valid() && WireSized(d.torrent)
    modifies d`downloaded, d`inProgress
    modifies p`sent, p`interested, p`incoming, p`peerChoking, p`peerInterested, p`bitfield
    ensures (StateOf(d, p), end) == Rounds(d.torrent, d.sha1, old(StateOf(d, p)), rounds)
    ensures d.Valid()
  {
    ghost var goal := Rounds(d.torrent, d.sha1, StateOf(d, p), rounds);
    var round, raised := 0, false;
    while |d.downloaded| < NumPieces(d.torrent) && round < rounds && !raised
      invariant round <= rounds
      invariant d.Valid()
      invariant !raised ==> Rounds(d.torrent, d.sha1, StateOf(d, p), rounds - round) == goal
      invariant raised ==> (StateOf(d, p), Raised) == goal
      decreases rounds - round
    {
      round := round + 1;
      raised := WorkerRound(d, p);
    }
    if raised {
      end := Raised;
    } else if |d.downloaded| >= NumPieces(d.torrent) {
      end := AllDone;
    } else {
      end := RoundsSpent;
    }
  }

  /**
   * One round of the worker's loop: claim the first piece the peer can
   * serve, fetch it and settle the attempt. The new table, peer state and
   * what was written are those of `Round`.
   */
  method WorkerRound(d: Downloader, p: Peer) returns (raised: bool)
    requires d.Valid() && WireSized(d.torrent)
    modifies d`downloaded, d`inProgress
    modifies p`sent, p`interested, p`incoming, p`peerChoking, p`peerInterested, p`bitfield
    ensures (StateOf(d, p), raised) == Round(d.torrent, d.sha1, old(StateOf(d, p)))
    ensures d.Valid() && d.inProgress == old(d.inProgress)
    ensures KeepsStored(old(d.Table()), d.Table())
  {
    ghost var s0 := StateOf(d, p);
    RoundKeepsTable(d.torrent, d.sha1, s0);
    var idx := d.SelectAndClaim(p.bitfield);
    if idx.None? {
      return false;
    }
    var i := idx.value;
    ghost var claimed := d.Table();
    var result := DownloadPieceFromPeer(p, i, PieceLength(d.torrent, i));
    d.FinishAttempt(i, result);
    return result.Crashed?;
  }
}
