/**
 * How a torrent is cut up: pieces of `piece length` bytes (the last one
 * shorter), each named by a 20-byte SHA-1 in the `pieces` string, and each
 * fetched as 16 KiB blocks that are put back together by offset.
 */
module Layout {
  import opened Binary
  import opened Ordering

  const HASH_LENGTH: nat := 20
  const BLOCK_SIZE: nat := 16384

  /** The parts of a torrent's info dictionary the download is driven by. */
  datatype Torrent = Torrent(pieceLength: int, piecesHash: seq<Byte>, totalLength: int)

  /** `len(pieces_hash) // 20`: trailing bytes short of a whole hash are ignored. */
  function NumPieces(t: Torrent): nat
  {
    |t.piecesHash| / HASH_LENGTH
  }

  /** `get_piece_length`: `piece length`, except the last piece, which holds what is left. */
  function PieceLength(t: Torrent, idx: nat): int
  {
    if idx == NumPieces(t) - 1 then t.totalLength - idx * t.pieceLength else t.pieceLength
  }

  /** Python's `s[a:b]` for 0 <= a <= b: both ends clamped to the length of s. */
  function Slice(s: seq<Byte>, a: nat, b: nat): (r: seq<Byte>)
    requires a <= b
    ensures b <= |s| ==> r == s[a..b]
    ensures |r| <= b - a
  {
    if a >= |s| then [] else if b >= |s| then s[a..] else s[a..b]
  }

  /** `get_piece_hash`: `pieces[20 * idx : 20 * (idx + 1)]`. */
  function PieceHash(t: Torrent, idx: nat): seq<Byte>
  {
    Slice(t.piecesHash, idx * HASH_LENGTH, (idx + 1) * HASH_LENGTH)
  }

  /** The hashes of pieces 0 to k-1, in order. */
  function HashesUpTo(t: Torrent, k: nat): seq<seq<Byte>>
  {
    seq(k, i requires 0 <= i < k => PieceHash(t, i))
  }

  /**
   * Every piece has a whole 20-byte hash, and read in order the piece
   * hashes are the `pieces` string (without any trailing partial hash).
   */
  lemma {:induction false} PieceHashesTile(t: Torrent, k: nat)
    requires k <= NumPieces(t)
    ensures forall i | 0 <= i < k :: |PieceHash(t, i)| == HASH_LENGTH
    ensures Join(HashesUpTo(t, k)) == t.piecesHash[..k * HASH_LENGTH]
  {
    if k > 0 {
      PieceHashesTile(t, k - 1);
      var h := HashesUpTo(t, k);
      assert HashesUpTo(t, k - 1) == h[..k - 1];
      assert h == h[..k - 1] + [h[k - 1]];
      JoinAppend(h[..k - 1], h[k - 1]);
      assert t.piecesHash[..k * HASH_LENGTH] == t.piecesHash[..(k - 1) * HASH_LENGTH] + PieceHash(t, k - 1);
    }
  }

  /** The torrents whose `length` the pieces cover: at least one byte in the last piece, none past it. */
  predicate Consistent(t: Torrent)
  {
    t.pieceLength > 0 && NumPieces(t) >= 1
    && (NumPieces(t) - 1) * t.pieceLength < t.totalLength <= NumPieces(t) * t.pieceLength
  }

  /** The lengths of pieces 0 to k-1, added up. */
  function LengthsUpTo(t: Torrent, k: nat): int
  {
    if k == 0 then 0 else LengthsUpTo(t, k - 1) + PieceLength(t, k - 1)
  }

  /**
   * For a consistent torrent every piece is non-empty and at most
   * `piece length` long, and the pieces add up to the total length.
   */
  lemma PieceLengthsTile(t: Torrent)
    requires Consistent(t)
    ensures forall i | 0 <= i < NumPieces(t) :: 0 < PieceLength(t, i) <= t.pieceLength
    ensures LengthsUpTo(t, NumPieces(t)) == t.totalLength
  {
    var n := NumPieces(t);
    FullPieces(t, n - 1);
  }

  lemma {:induction false} FullPieces(t: Torrent, k: nat)
    requires k < NumPieces(t)
    ensures LengthsUpTo(t, k) == k * t.pieceLength
  {
    if k > 0 {
      FullPieces(t, k - 1);
    }
  }

  // ---------------------------------------------------------------------
  // Blocks
  // ---------------------------------------------------------------------

  /** A block request: `length` bytes at offset `begin` of a piece. */
  datatype Span = Span(begin: nat, length: nat)

  function Min(a: int, b: int): int
  {
    if a <= b then a else b
  }

  /** The blocks from offset `begin` on: `range(begin, piece_length, block_size)`, the last one cut short. */
  function PlanFrom(pieceLength: int, begin: nat): seq<Span>
    decreases pieceLength - begin
  {
    if begin >= pieceLength then []
    else [Span(begin, Min(BLOCK_SIZE, pieceLength - begin))] + PlanFrom(pieceLength, begin + BLOCK_SIZE)
  }

  /** The blocks requested for a piece of the given length. */
  function BlockPlan(pieceLength: int): seq<Span>
  {
    PlanFrom(pieceLength, 0)
  }

  /** The offsets the plan from `begin` requests, in order. */
  lemma {:induction false} PlanFromShape(pieceLength: int, begin: nat)
    ensures var p := PlanFrom(pieceLength, begin);
      |p| == (if begin >= pieceLength then 0 else (pieceLength - begin + BLOCK_SIZE - 1) / BLOCK_SIZE)
      && (forall k | 0 <= k < |p| :: p[k].begin == begin + k * BLOCK_SIZE && 0 < p[k].length <= BLOCK_SIZE)
      && (forall k | 0 <= k < |p| - 1 :: p[k].length == BLOCK_SIZE)
      && (|p| > 0 ==> p[|p| - 1].begin + p[|p| - 1].length == pieceLength)
    decreases pieceLength - begin
  {
    if begin < pieceLength {
      PlanFromShape(pieceLength, begin + BLOCK_SIZE);
      var p := PlanFrom(pieceLength, begin);
      var rest := PlanFrom(pieceLength, begin + BLOCK_SIZE);
      assert p == [Span(begin, Min(BLOCK_SIZE, pieceLength - begin))] + rest;
      forall k | 1 <= k < |p|
        ensures p[k].begin == begin + k * BLOCK_SIZE
      {
        assert p[k] == rest[k - 1];
      }
    }
  }

  /**
   * The plan for a piece: ceil(length / 16384) blocks at offsets 0, 16384,
   * ...; each full-size except the last, which ends exactly at the end of
   * the piece. Consecutive blocks therefore meet, covering the piece once.
   */
  lemma BlockPlanShape(pieceLength: int)
    ensures var p := BlockPlan(pieceLength);
      |p| == (if pieceLength <= 0 then 0 else (pieceLength + BLOCK_SIZE - 1) / BLOCK_SIZE)
      && (forall k | 0 <= k < |p| :: p[k].begin == k * BLOCK_SIZE && 0 < p[k].length <= BLOCK_SIZE)
      && (forall k | 0 <= k < |p| - 1 :: p[k].begin + p[k].length == p[k + 1].begin)
      && (|p| > 0 ==> p[|p| - 1].begin + p[|p| - 1].length == pieceLength)
  {
    PlanFromShape(pieceLength, 0);
  }

  // ---------------------------------------------------------------------
  // Reassembly
  // ---------------------------------------------------------------------

  /** The blocks in ascending order of offset. */
  function InOffsetOrder(blocks: map<int, seq<Byte>>): (r: seq<seq<Byte>>)
    ensures |r| == |blocks|
  {
    var offsets := SortedInts(blocks.Keys);
    seq(|offsets|, k requires 0 <= k < |offsets| => blocks[offsets[k]])
  }

  /** `b''.join(blocks[offset] for offset in sorted(blocks.keys()))` */
  function Assemble(blocks: map<int, seq<Byte>>): seq<Byte>
  {
    Join(InOffsetOrder(blocks))
  }

  /** Total length of a list of byte strings. */
  function TotalLength(parts: seq<seq<Byte>>): nat
  {
    if parts == [] then 0 else |parts[0]| + TotalLength(parts[1..])
  }

  /** `sum(len(block) for block in blocks.values())`. */
  function BlocksLength(blocks: map<int, seq<Byte>>): nat
  {
    TotalLength(InOffsetOrder(blocks))
  }

  lemma {:induction false} JoinLength(parts: seq<seq<Byte>>)
    ensures |Join(parts)| == TotalLength(parts)
  {
    if parts != [] {
      JoinLength(parts[1..]);
    }
  }

  /** The assembled piece is as long as its blocks together. */
  lemma AssembleLength(blocks: map<int, seq<Byte>>)
    ensures |Assemble(blocks)| == BlocksLength(blocks)
  {
    JoinLength(InOffsetOrder(blocks));
  }

  /** The offsets of the plan's blocks. */
  function Offsets(plan: seq<Span>): set<int>
  {
    set k | 0 <= k < |plan| :: plan[k].begin as int
  }

  /** The parts of `data` the spans of a plan pick out. */
  function Cut(data: seq<Byte>, plan: seq<Span>): (r: seq<seq<Byte>>)
    ensures |r| == |plan|
  {
    seq(|plan|, k requires 0 <= k < |plan| => Slice(data, plan[k].begin, plan[k].begin + plan[k].length))
  }

  /** What a peer that serves a piece faithfully sends: the piece cut along the plan, keyed by offset. */
  function Split(data: seq<Byte>): map<int, seq<Byte>>
  {
    map b | b in Offsets(BlockPlan(|data|)) && b >= 0 :: Slice(data, b, b + BLOCK_SIZE)
  }

  /** The elements of a sequence, as a set. */
  function Elements(s: seq<int>): (r: set<int>)
    ensures forall k | 0 <= k < |s| :: s[k] in r
  {
    set k | 0 <= k < |s| :: s[k]
  }

  /** The least element of a strictly ascending sequence is its first, and the others are its tail's. */
  lemma AscendingHead(s: seq<int>)
    requires s != [] && forall p, q | 0 <= p < q < |s| :: s[p] < s[q]
    ensures IsLeastInt(s[0], Elements(s))
    ensures Elements(s) - {s[0]} == Elements(s[1..])
  {
    var elems := Elements(s);
    forall x | x in elems - {s[0]} ensures x in Elements(s[1..]) {
      var j :| 0 <= j < |s| && s[j] == x;
      assert j != 0 && s[1..][j - 1] == x;
    }
    forall x | x in Elements(s[1..]) ensures x in elems - {s[0]} {
      var j :| 0 <= j < |s[1..]| && s[1..][j] == x;
      assert s[j + 1] == x;
    }
  }

  /** Listing a strictly ascending sequence's elements in order gives it back. */
  lemma {:induction false} SortedIntsOfAscending(s: seq<int>)
    requires forall p, q | 0 <= p < q < |s| :: s[p] < s[q]
    ensures SortedInts(Elements(s)) == s
    decreases |s|
  {
    if s != [] {
      var tail := s[1..];
      assert s == [s[0]] + tail;
      assert SortedInts(Elements(s)) == [s[0]] + SortedInts(Elements(tail)) by {
        AscendingHead(s);
        SortedIntsUnfold(Elements(s), s[0]);
      }
      assert SortedInts(Elements(tail)) == tail by {
        SortedIntsOfAscending(tail);
      }
    }
  }

  /** Joining the parts the plan from `begin` cuts gives the rest of the piece. */
  lemma {:induction false} JoinPlanSlices(data: seq<Byte>, begin: nat)
    requires begin <= |data|
    ensures Join(Cut(data, PlanFrom(|data|, begin))) == data[begin..]
    decreases |data| - begin
  {
    var p := PlanFrom(|data|, begin);
    if begin < |data| {
      var next := Min(begin + BLOCK_SIZE, |data|);
      var q := PlanFrom(|data|, begin + BLOCK_SIZE);
      assert p == [Span(begin, next - begin)] + q;
      assert Cut(data, p)[0] == data[begin..next];
      if begin + BLOCK_SIZE <= |data| {
        JoinPlanSlices(data, begin + BLOCK_SIZE);
        assert Cut(data, p)[1..] == Cut(data, q);
      } else {
        assert Cut(data, p)[1..] == [];
      }
      assert data[begin..] == data[begin..next] + data[next..];
    }
  }

  /** How many blocks the plan for a piece has: the piece length divided by 16384, rounded up. */
  lemma PlanCount(pieceLength: int)
    ensures |BlockPlan(pieceLength)| == if pieceLength <= 0 then 0 else (pieceLength + BLOCK_SIZE - 1) / BLOCK_SIZE
  {
    BlockPlanShape(pieceLength);
  }

  /** The offsets the plan for a piece requests: the multiples of 16384 inside the piece. */
  lemma OffsetsOfPlan(pieceLength: int)
    ensures forall b :: b in Offsets(BlockPlan(pieceLength)) <==> 0 <= b < pieceLength && b % BLOCK_SIZE == 0
  {
    var p := BlockPlan(pieceLength);
    BlockPlanShape(pieceLength);
    forall b | 0 <= b < pieceLength && b % BLOCK_SIZE == 0
      ensures b in Offsets(p)
    {
      var k := b / BLOCK_SIZE;
      assert k < |p| && p[k].begin == b;
    }
    forall b | b in Offsets(p)
      ensures 0 <= b < pieceLength && b % BLOCK_SIZE == 0
    {
      var k :| 0 <= k < |p| && p[k].begin == b;
      assert p[k].begin + p[k].length <= pieceLength by {
        if k < |p| - 1 {
          assert p[k + 1].begin <= p[|p| - 1].begin;
        }
      }
    }
  }

  /** The offsets a piece is split at: the multiples of 16384 inside it. */
  lemma SplitOffsets(data: seq<Byte>)
    ensures forall b :: b in Split(data) <==> 0 <= b < |data| && b % BLOCK_SIZE == 0
  {
    OffsetsOfPlan(|data|);
  }

  /** The first n multiples of 16384, when n blocks cover a piece exactly, are its block offsets. */
  lemma MultiplesBelow(pieceLength: int, n: nat)
    requires n == if pieceLength <= 0 then 0 else (pieceLength + BLOCK_SIZE - 1) / BLOCK_SIZE
    ensures forall b :: b in Elements(seq(n, k => k * BLOCK_SIZE)) <==> 0 <= b < pieceLength && b % BLOCK_SIZE == 0
  {
    var m := seq(n, k => k * BLOCK_SIZE);
    forall b | 0 <= b < pieceLength && b % BLOCK_SIZE == 0 ensures b in Elements(m) {
      assert m[b / BLOCK_SIZE] == b;
    }
  }

  /** The block at position k of a piece's plan starts at k * 16384 and ends 16384 later or at the piece's end. */
  lemma PlanSpan(pieceLength: int, k: nat)
    requires k < |BlockPlan(pieceLength)|
    ensures var s := BlockPlan(pieceLength)[k];
      s.begin == k * BLOCK_SIZE && s.begin + s.length == Min(s.begin + BLOCK_SIZE, pieceLength)
  {
    var p := BlockPlan(pieceLength);
    BlockPlanShape(pieceLength);
    if k < |p| - 1 {
      assert p[k].begin + p[k].length == p[k + 1].begin;
    }
  }

  /** The plan's offsets, in order, are the keys of `Split`, each holding its span's part. */
  lemma SplitKeys(data: seq<Byte>) returns (begins: seq<int>)
    ensures var p := BlockPlan(|data|);
      |begins| == |p| && (forall a, b | 0 <= a < b < |begins| :: begins[a] < begins[b])
      && Split(data).Keys == Elements(begins)
      && forall k | 0 <= k < |p| :: Split(data)[begins[k]] == Cut(data, p)[k]
  {
    var p := BlockPlan(|data|);
    begins := seq(|p|, k => k * BLOCK_SIZE);
    assert Split(data).Keys == Elements(begins) by {
      PlanCount(|data|);
      SplitOffsets(data);
      MultiplesBelow(|data|, |p|);
    }
    forall k | 0 <= k < |p|
      ensures Split(data)[begins[k]] == Cut(data, p)[k]
    {
      PlanSpan(|data|, k);
      SplitOffsets(data);
      CutAt(data, p, k);
    }
  }

  lemma CutAt(data: seq<Byte>, plan: seq<Span>, k: nat)
    requires k < |plan|
    ensures Cut(data, plan)[k] == Slice(data, plan[k].begin, plan[k].begin + plan[k].length)
  {
  }

  /** Putting back together the blocks of a piece, keyed by offset, gives the piece. */
  lemma SplitAssemble(data: seq<Byte>)
    ensures Assemble(Split(data)) == data
  {
    var p := BlockPlan(|data|);
    var begins := SplitKeys(data);
    SortedIntsOfAscending(begins);
    JoinPlanSlices(data, 0);
    assert InOffsetOrder(Split(data)) == Cut(data, p);
  }

  /** `verify_piece`: the SHA-1 of the data (here a parameter) equals the piece's hash. */
  predicate Verified(t: Torrent, sha1: seq<Byte> -> seq<Byte>, idx: nat, data: seq<Byte>)
  {
    sha1(data) == PieceHash(t, idx)
  }
}
