# A verified model of a small BitTorrent client

This project models the core of a small Python BitTorrent client:

- the bencoding codec (`parser.py`);
- the peer-wire session with a remote peer: handshake, length-prefixed messages, message handling and the bitfield test (`BitTorrentPeer` in `connect_to_peer.py`, `AsyncBitTorrentPeer` in `connect_to_peer_async.py`);
- fetching one piece from one peer: the block-request plan, the collection loop, reassembly by offset and hash verification;
- the two downloaders: the asynchronous `peer_worker` with its claim table (`downloaded_pieces`, `pieces_in_progress`), and the synchronous `download_from_peers` filling one slot per piece;
- the pure parts of the tracker announce in `get_peers.py`: `left`, the peer id, the query string and URL, and decoding the `peers` answer in compact form (BEP 23, Tracker Returns Compact Peer Lists) or as a list of dictionaries.

The socket is replaced by a byte stream. The `incoming` field of the peer object holds what the remote peer will still send, as the segments successive `recv` calls hand over; `sent` holds every byte written so far. SHA-1, percent-encoding (`urllib.parse.quote`) and `os.urandom` are function or value parameters.

Every method that changes state is proved equal to a function of the state it works on:

- fetching one piece from one peer is a function of the link, `Link(flags, stream)`, in `Fetching` and `Sequential`;
- the rounds of `peer_worker` are functions of the claim table, the link and the bytes written (`Round`, `Rounds` and `Worker` in `Swarm`);
- `download_from_peers` is a function of the slots, the link and the bytes written (`FillFrom`, `FillPeer` and `Run` in `Sequential`).

The properties are then proved about those functions.

Modules, one per file:

| file | module | models |
|---|---|---|
| binary.dfy | Binary | big-endian integers, decimal text, `bytes.index` |
| ordering.dfy | Ordering | byte-string and integer order, `sorted` |
| bencode.dfy | Bencode | `parser.py` |
| peerwire.dfy | PeerWire | handshake, framing, `handle_message`, `has_piece` |
| peer.dfy | PeerSession | the peer object of both clients |
| layout.dfy | Layout | piece lengths and hashes, block plan, reassembly |
| fetch.dfy | Fetching | one piece from one peer, as functions |
| swarm.dfy | Swarm | `download_piece_from_peer`, `peer_worker`, claim table |
| sequential.dfy | Sequential | `download_piece`, `download_from_peers` |
| tracker.dfy | Tracker | `get_peers_from_tracker` without the HTTP request |

Where the two clients differ, the model follows each client's own code:

- The synchronous collection loop stops once `len(piece_data) * 16384 >= piece_length`. The asynchronous one stops once `len(piece_data) >= len(blocks_needed)`. `Fetching.CompletionTestsAgree` proves the two tests equal.
- The synchronous client judges completeness by the summed block lengths. The asynchronous one counts offsets.
- The synchronous unchoke wait has no bound. A choking peer with nothing more to send makes it wait forever, which is the `Hangs` outcome. The asynchronous wait polls 51 times: `wait_time` grows by 0.1 from 0 while it is below 5, in floating point.
- The synchronous `download_piece` first receives and handles 50 messages. The blocks they carry are dropped, because `piece_data` is reset before collection.

## Model

| member | source | states |
|---|---|---|
| Binary.BigEndian32 | connect_to_peer_async.py:88 | `struct.pack(">I", n)`: four bytes whose big-endian value is n |
| Binary.BigEndian32Inverse | connect_to_peer_async.py:99 | `struct.unpack(">I", s)` of four bytes is below 2^32, and packing it again gives the same bytes |
| Binary.FromBigEndianOf | get_peers.py:125 | reading back the k big-endian bytes written for n gives n |
| Binary.BigEndianOf | get_peers.py:125 | writing the value of a byte string at its own width gives the string back |
| Binary.NatDigits | parser.py:62-64 | `str(n)` for n ≥ 0 is a non-empty run of ASCII digits with no leading zero |
| Binary.DigitsValueOfNatDigits | parser.py:64 | the digits of `str(n)` read back as n |
| Binary.ParseDecimal | parser.py:8 | `int()` accepts only an optional `-` and digits; a negative result needs the `-` |
| Binary.ParseShowInt | parser.py:62 | `int(str(n)) == n` for every integer |
| Binary.ShowIntCharacters | parser.py:62 | `str(n)` is non-empty and made of digits and `-` only, so it holds no `e` |
| Binary.IndexOf | parser.py:7 | `data.index(b, from)`: the first position at or after `from` holding b, or none when no position does |
| Ordering.LexLessIrreflexive | parser.py:78 | no byte string is below itself |
| Ordering.LexLessAsymmetric | parser.py:78 | two byte strings are never each below the other |
| Ordering.LexLessTransitive | parser.py:78 | byte-string order is transitive |
| Ordering.LexLessTotal | parser.py:78 | of two distinct byte strings one is below the other |
| Ordering.LeastKeyExists | parser.py:78 | a non-empty set of keys has a least key |
| Ordering.LeastKeyUnique | parser.py:78 | that least key is unique |
| Ordering.SortedKeys | parser.py:78 | `sorted(keys)` has as many entries as the set, each from the set |
| Ordering.SortedKeysMembers | parser.py:78 | `sorted(keys)` lists every key and nothing else |
| Ordering.SortedKeysAscending | parser.py:78 | `sorted(keys)` is strictly ascending |
| Ordering.LeastIntExists | connect_to_peer_async.py:322 | a non-empty set of offsets has a least offset |
| Ordering.LeastIntUnique | connect_to_peer_async.py:322 | that least offset is unique |
| Ordering.SortedInts | connect_to_peer_async.py:322 | `sorted(offsets)` lists exactly the offsets, strictly ascending |
| Ordering.SortedIntsUnfold | connect_to_peer.py:275 | the sorted listing is the least offset, then the listing of the rest |
| Bencode.EncodeTag | parser.py:60-84 | every encoding is non-empty and opens with `i`, `l`, `d` or a digit, as the value's kind says |
| Bencode.EncodeDictInKeyOrder | parser.py:75-84 | a dictionary is written as `d`, its entries in strictly ascending key order covering every key, then `e` |
| Bencode.ParseInt | parser.py:4-9 | a read integer ends at least two bytes on and within the input |
| Bencode.ParseIntReads | parser.py:4-9 | accepted exactly when the text up to the first `e` after the `i` is a decimal; the cursor lands just past that `e`; no `e` is a missing-delimiter error |
| Bencode.ParseStr | parser.py:11-16 | a read byte string moves the cursor forward |
| Bencode.ParseStrReads | parser.py:11-16 | a string is a decimal length before the first `:`, then that many bytes cut short at the end; the cursor lands `length` bytes after the `:` even past the end |
| Bencode.ValueAt | parser.py:37-47 | out-of-range and non-value first bytes are errors; an accepted value has the kind its first byte names, and the cursor advances |
| Bencode.ListAt | parser.py:18-25 | `parse_list` yields a list and moves the cursor past its stop byte |
| Bencode.ItemsFrom | parser.py:22-24 | the list loop stops at an `e` on a value boundary or at the end of the input |
| Bencode.DictAt | parser.py:27-35 | `parse_dict` yields a dictionary and moves the cursor past its stop byte |
| Bencode.EntriesFrom | parser.py:31-34 | the dictionary loop stops at an `e` or at the end of the input |
| Bencode.Decode | parser.py:49-58 | empty input is refused; an accepted root value is one `parse_any` reads at 0 and ends at or past the last byte; otherwise the parse failed or stopped early |
| Bencode.ParseAny | parser.py:37-47 | the dispatching parser, calling the looping list and dictionary parsers, equals `ValueAt` |
| Bencode.ParseList | parser.py:18-25 | the `while` loop appending to `arr` equals `ListAt` |
| Bencode.ParseDict | parser.py:27-35 | the `while` loop storing `d[key] = val` equals `DictAt` |
| Bencode.EntriesFromStep | parser.py:31-34 | one round of the dictionary loop stores the key, and a later equal key overrides it |
| Bencode.BDecode | parser.py:49-58 | `bdecode` equals `Decode` |
| Bencode.ParseStrEncoded | parser.py:11-16 | `parse_str` reads back `bencode` of a byte string, wherever it appears |
| Bencode.IntEncoded | parser.py:4-9 | `parse_int` reads back `bencode` of an integer |
| Bencode.ValueAtEncoded | parser.py:37-47 | `parse_any` reads back `bencode(v)` wherever it appears, stopping just after it |
| Bencode.ListEncoded | parser.py:69-74 | a list's encoding reads back as that list |
| Bencode.DictEncoded | parser.py:75-84 | a dictionary's encoding reads back as that dictionary |
| Bencode.ItemsFromEncoded | parser.py:22-24 | the list loop reads back the items, followed by `e` or by the end |
| Bencode.EntriesFromEncoded | parser.py:31-34 | the dictionary loop reads back the listed entries, followed by `e` or by the end |
| Bencode.DecodeEncode | parser.py:4-84 | `bdecode(bencode(v)) == v` for every value |
| Bencode.EncodeInjective | parser.py:60-84 | distinct values have distinct encodings |
| Bencode.TrailingDataRejected | parser.py:56-57 | bytes after a complete value are refused, naming where they start |
| Bencode.TruncatedStringAccepted | parser.py:15-16 | a declared length past the end of the input is accepted with the bytes that are there |
| Bencode.TruncatedStringRead | parser.py:15-16 | the same, for any input laid out as digits, `:` and fewer bytes |
| Bencode.UnterminatedListAccepted | parser.py:22-25 | a list with no closing `e` is accepted |
| Bencode.UnterminatedItemsRead | parser.py:22-25 | the same, for any input laid out as `l` and item encodings |
| Bencode.UnterminatedDictAccepted | parser.py:31-35 | a dictionary with no closing `e` is accepted |
| Bencode.UnterminatedEntriesRead | parser.py:31-35 | the same, for any input laid out as `d` and entry encodings |
| PeerWire.HandshakeLayout | connect_to_peer_async.py:42-46 | with a 20-byte info hash and peer id the handshake is 68 bytes, reserved bytes zero, peer id last, and an echo of it is accepted |
| PeerWire.HandshakeOtherTorrent | connect_to_peer_async.py:68-70 | a peer answering for another info hash is refused |
| PeerWire.HandshakeIgnoresReservedAndPeerId | connect_to_peer.py:59-73 | acceptance depends on bytes 0-19 and 28-47 only |
| PeerWire.Frame | connect_to_peer_async.py:81-88 | a message is its payload plus five bytes |
| PeerWire.InterestedFrame | connect_to_peer_async.py:81 | `struct.pack(">IB", 1, 2)` is the interested message with no payload |
| PeerWire.RequestFrame | connect_to_peer_async.py:88 | the request is 17 bytes: length 13, id 6, index, begin and length as big-endian 32-bit fields |
| PeerWire.ReadFrame | connect_to_peer_async.py:92-118 | a read leaves a suffix of the stream, consumes at least one byte of a non-empty stream, and a message needs input |
| PeerWire.ReadFrameMessage | connect_to_peer.py:114-137 | a message is read exactly when the stream starts with its whole frame |
| PeerWire.ReadFrameOfFrame | connect_to_peer_async.py:92-113 | reading a frame gives back its id and payload and leaves what followed |
| PeerWire.ReadKeepAlive | connect_to_peer_async.py:102-103 | a zero length is a keep-alive: no message, four bytes consumed |
| PeerWire.ReadRequestFrame | connect_to_peer_async.py:86-90 | the three fields of a request read back as written |
| PeerWire.ReceivePieceFrame | connect_to_peer_async.py:139-143 | a piece message hands back its index, offset and block, flags untouched |
| PeerWire.HandleMalformed | connect_to_peer_async.py:134-143 | `handle_message` raises exactly on a `have` payload that is not four bytes or a `piece` payload shorter than eight |
| PeerWire.HandleTouches | connect_to_peer_async.py:120-145 | each flag changes only on its own messages, the bitfield then holds the payload, and blocks come only from piece messages |
| PeerWire.BitOf | connect_to_peer_async.py:155 | shifting right and masking picks out the bit counted from the most significant end |
| PeerWire.HasPieceOfPackBits | connect_to_peer_async.py:147-155 | `has_piece` reads back exactly the pieces packed into a bitfield, and nothing past its end |
| PeerSession.Peer.constructor | connect_to_peer.py:12-23 | a new peer is choking, not interested and has no bitfield; nothing is sent |
| PeerSession.Peer.RecvExact | connect_to_peer.py:82-90 | the next n bytes when the peer sends that many; otherwise failure, with everything sent consumed |
| PeerSession.Peer.Handshake | connect_to_peer.py:37-80 | writes the handshake; succeeds exactly when 68 bytes arrive that pass the checks; consumes them |
| PeerSession.Peer.SendInterested | connect_to_peer.py:92-97 | writes the interested message and sets `interested` |
| PeerSession.Peer.SendRequest | connect_to_peer.py:105-112 | writes the request message for the block |
| PeerSession.Peer.ReceiveMessage | connect_to_peer.py:114-143 | the message and the remaining stream are those of `ReadFrame` |
| PeerSession.Peer.HandleMessage | connect_to_peer.py:145-181 | the new flags and the result are those of `Handle` |
| Layout.Slice | connect_to_peer_async.py:265 | a Python slice: exact inside the string, never longer than asked |
| Layout.PieceHashesTile | connect_to_peer_async.py:263-265 | each piece's hash has 20 bytes, and in order they are the `pieces` string |
| Layout.PieceLengthsTile | connect_to_peer_async.py:257-261 | for a consistent torrent every piece is non-empty, at most `piece length`, and they add up to the total length |
| Layout.FullPieces | connect_to_peer_async.py:257-261 | every piece before the last has the full `piece length` |
| Layout.PlanFromShape | connect_to_peer_async.py:191-193 | the blocks from `begin` start at `begin`, 16384 apart, each non-empty and at most 16384 |
| Layout.BlockPlanShape | connect_to_peer_async.py:190-194 | the plan has ceil(length/16384) blocks at offsets k*16384; consecutive blocks meet and the last ends at the piece's end |
| Layout.InOffsetOrder | connect_to_peer_async.py:322 | the ordered blocks are as many as the offsets |
| Layout.JoinLength | connect_to_peer.py:275 | a join is as long as its parts together |
| Layout.AssembleLength | connect_to_peer.py:270-275 | the assembled piece is as long as the summed block lengths |
| Layout.JoinPlanSlices | connect_to_peer_async.py:190-194 | joining the parts the plan cuts from `begin` gives the rest of the piece |
| Layout.PlanCount | connect_to_peer_async.py:191 | the plan has ceil(length/16384) blocks |
| Layout.OffsetsOfPlan | connect_to_peer_async.py:191 | the plan requests exactly the multiples of 16384 inside the piece |
| Layout.PlanSpan | connect_to_peer_async.py:191-193 | the k-th block starts at k*16384 and ends 16384 later or at the piece's end |
| Layout.SplitAssemble | connect_to_peer_async.py:322 | the blocks of a piece keyed by offset, joined in offset order, give the piece |
| Fetching.Poll | connect_to_peer_async.py:201-210 | one receive and handle never grows the stream, and shrinks a non-empty one |
| Fetching.RequestsLength | connect_to_peer_async.py:191-194 | one 17-byte request per planned block |
| Fetching.RequestsFollowPlan | connect_to_peer_async.py:191-194 | the k-th request asks for the k-th block of the plan |
| Fetching.CompletionTestsAgree | connect_to_peer.py:254 | the two clients' completion tests agree |
| Fetching.BitfieldEndsWait | connect_to_peer_async.py:286-292 | a bitfield message ends the bitfield wait, which then holds it |
| Fetching.UnchokeEndsWait | connect_to_peer_async.py:178-187 | an unchoke message ends the unchoke wait with the peer unchoked |
| Fetching.SilentPeerStaysChoking | connect_to_peer_async.py:178-187 | a silent peer stays choking however long it is polled |
| Fetching.CollectStoresBlock | connect_to_peer_async.py:210-215 | a block of the wanted piece is stored under its offset and resets the counter |
| Fetching.CollectServed | connect_to_peer_async.py:201-219 | collecting from a peer that answers every request from `begin` on completes the piece |
| Fetching.ServedPieceIsFetched | connect_to_peer_async.py:165-219 | a peer that has the piece, unchokes and answers every request yields exactly the piece's blocks, which assemble to the piece |
| Fetching.FetchOnceUnchoked | connect_to_peer_async.py:186-219 | once the wait ends unchoked, the fetch is the collection loop |
| Swarm.AwaitBitfield | connect_to_peer_async.py:286-292 | the bitfield loop equals `WaitBitfield` |
| Swarm.AwaitUnchoke | connect_to_peer_async.py:178-184 | the unchoke loop equals `WaitUnchoke` over 51 polls |
| Swarm.RequestBlocks | connect_to_peer_async.py:190-194 | the request loop returns the block plan and writes one request per block, in order |
| Swarm.CollectBlocks | connect_to_peer_async.py:197-219 | the collection loop equals `Collect` |
| Swarm.DownloadPieceFromPeer | connect_to_peer_async.py:165-219 | outcome and new peer state are `FetchPiece`; what is written is `Sent`; `interested` is set exactly when the peer has the piece or it was set already |
| Swarm.WaitAndFetch | connect_to_peer_async.py:177-219 | from the unchoke wait on, outcome and state are `FetchOnceInterested` |
| Swarm.RequestAndCollect | connect_to_peer_async.py:189-219 | after the unchoke, the requests are written and the outcome is `Collect` |
| Swarm.ShortPieceMessageRaises | connect_to_peer_async.py:139-143 | an unchoked peer with piece 0 that answers with a three-byte piece payload makes the fetch raise |
| Swarm.FirstEligibleFrom | connect_to_peer_async.py:301-304 | the first eligible index from k on, with none eligible before it |
| Swarm.FirstEligible | connect_to_peer_async.py:300-309 | the lowest index not stored, not claimed and held by the peer; none exactly when no index is eligible |
| Swarm.SettleAgreesUnlessRaised | connect_to_peer_async.py:320-340 | the corrected bookkeeping agrees with the source on every outcome except the exception |
| Swarm.ClaimedPieceKeepsDownloadOpen | connect_to_peer_async.py:298 | while a piece is claimed and not stored, fewer pieces are stored than the torrent has |
| Swarm.FullTable | connect_to_peer_async.py:298 | once as many pieces are stored as the torrent has, every piece is stored |
| Swarm.SettleReleasesClaim | connect_to_peer_async.py:320-340 | settling keeps the table valid, always gives the claim up, stores the piece exactly when its blocks verify, and changes nothing else |
| Swarm.RaisedAttemptLeaksClaim | connect_to_peer_async.py:342-347 | after the exception the piece stays claimed, is never eligible again, and the table never fills |
| Swarm.ClaimExcludesOthers | connect_to_peer_async.py:301-307 | a claimed piece is never selected for another worker, whatever that worker's peer has |
| Swarm.Downloader.constructor | connect_to_peer_async.py:250-252 | the table starts empty and valid |
| Swarm.Downloader.SelectAndClaim | connect_to_peer_async.py:300-309 | claims and returns `FirstEligible`, or nothing; the table stays valid |
| Swarm.Downloader.Complete | connect_to_peer_async.py:326-328 | stores the piece and drops its claim |
| Swarm.Downloader.Release | connect_to_peer_async.py:334-335 | drops the claim |
| Swarm.Downloader.FinishAttempt | connect_to_peer_async.py:320-340 | the new table is `Settle` of the old one, and it stays valid |
| Swarm.RoundKeepsTable | connect_to_peer_async.py:299-340 | one round keeps the table valid, with the same claims and every stored piece. With nothing eligible it changes nothing. Otherwise it tries the first eligible piece, which ends up stored exactly when its fetched blocks verify; no other piece changes; the round raises exactly when the fetch raised |
| Swarm.RoundsKeepTable | connect_to_peer_async.py:298-340 | the loop keeps the table valid, with the same claims and every stored piece. It ends with every piece stored, with the bound spent, or on the exception; `AllDone` means every piece is stored |
| Swarm.WorkerKeepsTable | connect_to_peer_async.py:273-347 | the same for the whole worker. It ends `NotConnected` exactly when the peer is unreachable, and then nothing changes |
| Swarm.PeerWorker | connect_to_peer_async.py:273-347 | the new table, peer state and written bytes are `Worker` of the old ones. The table stays valid with the same claims, no stored piece is replaced, and `AllDone` means every piece is stored. An unreachable peer leaves the table and the peer unchanged |
| Swarm.WorkerRounds | connect_to_peer_async.py:298-340 | the `while` loop's new table, peer state and written bytes are `Rounds` of the old ones |
| Swarm.WorkerRound | connect_to_peer_async.py:299-340 | the new table, peer state and written bytes are `Round` of the old ones: the first eligible piece is claimed, `FetchPiece` gives its outcome, and `Settle` records that outcome. The round raises exactly when the fetch raised; the table stays valid and keeps every stored piece |
| Sequential.Conclude | connect_to_peer.py:269-284 | a piece is returned exactly when the summed lengths reach the piece length and the offset-ordered join hashes to the piece hash, and it is that join |
| Sequential.GatherAgreesWithCollect | connect_to_peer.py:250-267 | the synchronous and asynchronous collection loops read the same messages and store the same blocks |
| Sequential.DownloadedPieceMatchesHash | connect_to_peer.py:269-284 | a returned piece has the expected hash and at least the piece's length |
| Sequential.KeepAlivesPass | connect_to_peer.py:217-224 | keep-alives pass through the first receives without touching the flags |
| Sequential.SilentWarmup | connect_to_peer.py:217-224 | a silent peer leaves the flags alone through the first receives |
| Sequential.FaithfulPeerDelivers | connect_to_peer.py:199-284 | an unchoked peer with the piece that idles through the first receives and answers every request yields the piece when its hash matches, `None` otherwise |
| Sequential.SilentChokedPeerHangs | connect_to_peer.py:236-240 | a choking silent peer keeps `download_piece` waiting forever, where the asynchronous client gives up |
| Sequential.SkipEarlyMessages | connect_to_peer.py:217-224 | the fifty first receives equal `Warmup` |
| Sequential.AwaitUnchokeUnbounded | connect_to_peer.py:236-240 | the unchoke loop equals `UnchokeWait` |
| Sequential.GatherBlocks | connect_to_peer.py:250-267 | the collection loop equals `Gather` |
| Sequential.RequestAndGather | connect_to_peer.py:244-267 | writes one request per block, then collects as `Gather` |
| Sequential.Attempt | connect_to_peer.py:226-284 | from the bitfield test on, outcome and state are `AfterWarmup`; what is written is `SentAfterWarmup` |
| Sequential.DownloadPiece | connect_to_peer.py:199-284 | outcome and state are `PieceDownload`; what is written is `SentBy`; `interested` is set exactly when the call reaches that point or it was set already |
| Sequential.FillFromKeeps | connect_to_peer.py:336-353 | the piece loop keeps every slot valid. It never changes a filled slot or a slot before its start, and a slot it leaves empty was empty. It stops early only on an exception or a hang, with a slot still empty. When every slot from its start is filled, it asks the peer for nothing |
| Sequential.FillFromSkip | connect_to_peer.py:337-338 | a filled slot is passed over: the loop goes on with the next slot, the peer state and the written bytes unchanged, so nothing is requested for it |
| Sequential.TryFromKeeps | connect_to_peer.py:337-353 | the same, from an empty slot that `download_piece` is tried on |
| Sequential.ProceedKeeps | connect_to_peer.py:350-353 | storing a non-empty piece that has its hash, or nothing, then going on keeps the same |
| Sequential.FillPeerKeeps | connect_to_peer.py:323-356 | the same for one peer. With every slot filled, or with an unreachable peer, nothing changes |
| Sequential.RunKeeps | connect_to_peer.py:320-361 | every slot stays valid and no filled slot changes. Only an exception or a hang cuts the run short. The run is complete exactly when it was not cut short and every slot is filled |
| Sequential.FillPieces | connect_to_peer.py:336-353 | the piece loop's new peer state, slots and written bytes are `FillFrom` from slot 0 |
| Sequential.FillSlot | connect_to_peer.py:337-353 | one slot of the piece loop: a filled slot is skipped; for an empty one, `download_piece` runs and a non-empty result is stored. Whether the loop stops or goes on is as `FillFrom` says |
| Sequential.FillFromPeer | connect_to_peer.py:323-356 | the new peer state, slots and written bytes are `FillPeer` of the old ones. `served` holds exactly when the peer is reachable and its handshake answer is accepted |
| Sequential.DownloadFromPeers | connect_to_peer.py:317-361 | the slots and the end are `Run` from all-empty slots, with a new peer object per remote. Every filled slot holds its piece's hash. Only an exception or a hang cuts the run short. The run is complete exactly when it was not cut short and every slot is filled |
| Tracker.Contains | get_peers.py:31 | Python's `in` on a decoded value: raises on an integer; on a dictionary it is key membership |
| Tracker.Get | get_peers.py:33 | indexing succeeds exactly on a dictionary holding the key, with its value |
| Tracker.Metainfo | get_peers.py:31-35 | missing `announce` is the `ValueError`; accepted exactly when `announce` is a byte string and `info` is present, returning both |
| Tracker.FilesLength | get_peers.py:44 | the sum is accepted exactly when every file is a dictionary with an integer `length` |
| Tracker.FilesLengthIsSum | get_peers.py:44 | and it is then the sum of those lengths in order |
| Tracker.Left | get_peers.py:40-46 | `length` when present, otherwise the summed `files` lengths; `ValueError` exactly when neither key is there |
| Tracker.PeerId | get_peers.py:48-50 | 20 bytes: the prefix `-PY0001-` and the 12 random bytes |
| Tracker.SplitJoin | get_peers.py:76 | splitting an `&`-join gives the parts back when no part holds the separator |
| Tracker.BuildQuery | get_peers.py:66-76 | the query loop equals `QueryString` |
| Tracker.QueryRoundTrip | get_peers.py:66-76 | splitting the query on `&` and `=` gives the keys and values back, in order |
| Tracker.AnnounceParams | get_peers.py:53-63 | nine parameters, in the source's order |
| Tracker.FullUrl | get_peers.py:79-82 | the announce URL, then `&` exactly when it already holds `?` (else `?`), then the query |
| Tracker.AnnounceUrl | get_peers.py:29-82 | accepted exactly when the metainfo and `left` are; begins with the announce URL |
| Tracker.AnnounceUrlReadsBack | get_peers.py:53-82 | the URL's query reads back as the nine keys with their encoded values |
| Tracker.DottedQuadParses | get_peers.py:124 | the dotted-decimal text of the address bytes determines them |
| Tracker.CompactPeersAt | get_peers.py:121-126 | a string of 6k bytes gives k peers; the k-th is the address from bytes 6k to 6k+4 and the big-endian port from the next two |
| Tracker.DecodeCompact | get_peers.py:121-126 | the six-byte stride loop equals `CompactPeers` |
| Tracker.CompactRoundTrip | get_peers.py:117-126 | decoding the compact string of addresses and ports gives them back, in order |
| Tracker.EndpointOf | get_peers.py:129-132 | a list item is accepted exactly when it is a dictionary with a byte-string `ip` and an integer `port` |
| Tracker.ListedPeersMeans | get_peers.py:127-132 | a list is accepted exactly when every item is, and then gives the items' peers in order |
| Tracker.DecodePeerList | get_peers.py:127-132 | the list loop equals `ListedPeers` |
| Tracker.PeersFromResponse | get_peers.py:103-136 | reading the answer equals `PeersOf` |
| Tracker.FailureReasonWins | get_peers.py:104-106 | a `failure reason` is raised whatever else the answer holds |
| Tracker.PeersOfDictionary | get_peers.py:108-134 | no `peers` is the `ValueError`; a list is read item by item; an integer or a dictionary is an unknown format |
| Tracker.CompactAnswer | get_peers.py:111-126 | a compact answer yields its addresses in order |
| Tracker.RaggedCompactRefused | get_peers.py:118-119 | a compact string that is not whole 6-byte records is refused |

## Left out

- Sockets, `connect`, `close`, timeouts and the asyncio event loop are left out. A peer is a reachability flag, the segments it will send and the bytes written to it. A closed or timed-out connection reads as no message.
- Concurrency is left out: the per-piece `asyncio.Lock`, parallel workers, and the creation, awaiting and cancelling of worker coroutines in `download`. Workers run one at a time, so the lock's re-check in `SelectAndClaim` always passes.
- Sleeps and the floating-point `wait_time` are left out. They become poll budgets of 51 (unchoke wait), 10 (bitfield wait) and 100 empty receives (collection).
- SHA-1, `urllib.parse.quote` and `os.urandom` are parameters of the model.
- File I/O is left out: reading the torrent file, writing the output file, and the module-level read of `test.torrent` in `parser.py`. The `download` method's final write and the fields it reads are left out too.
- `udp_parser.py`, `calc_hash.py` and `main_func.py` are not part of this model.
- The HTTP request and its error handling in `get_peers.py` are left out. So is `.decode('utf-8')` of the announce URL, the failure reason and list-form addresses, which raises on invalid UTF-8; the model keeps the bytes.
- Swarm.PeerWorker: runs at most `rounds` rounds of the loop, because the source loops until every piece is stored, with no bound.
- Swarm.WorkerRound: uses the corrected bookkeeping, so a claim is given up even when `handle_message` raised (see Findings). The source leaves the piece in `pieces_in_progress` on that path (connect_to_peer_async.py:342-347). `Swarm.RaisedAttemptLeaksClaim` models that path as written.
- Swarm.Round: a round with nothing eligible stands for the one-second sleep and retry of the source; it uses up one of the `rounds`.
- Swarm.WireSized, and the `index`/`pieceLength` bounds on the request methods, are preconditions. `struct.pack` raises on values of 2^32 or more, and the model does not follow that error path.
- Bencode.ParseDecimal: models `int()` on an optional `-` and ASCII digits only. Python also accepts `+`, surrounding whitespace and underscores.
- Bencode.ParseStr: a negative declared length is refused. In Python it slices from the end and moves the cursor backwards.
- `bencode` of `str` values and `str` keys is left out: every decoded value is `int`, `bytes`, `list` or `dict` with byte keys.
- Tracker.Left: refuses a `length` that is not an integer. The source takes any value there. A byte string goes to `urllib.parse.quote` as it is (get_peers.py:68-71), and any other value goes through `str()` first (get_peers.py:74).
- Tracker.EndpointOf: refuses a `port` that is not an integer. The source passes any value through.
- Sequential.FillFromPeer: data the fifty first receives bring is dropped, as in the source. Its messages still change the flags.
- Bencode.ValueAt: accepts values nested to any depth. `parse_any` recurses once per level of `l` and `d` nesting, so Python raises `RecursionError` past its recursion limit, about a thousand levels.
- PeerSession.Peer.RecvExact: skips an empty segment and reads on. `_recv_exact` raises `ConnectionError` on an empty chunk (connect_to_peer.py:87-88), which is how a closed connection shows. In the model the end of the segments is the closed connection.
- Sequential.DownloadPiece: the unchoke wait that never ends is the `Hangs` outcome, rather than a loop that does not terminate.

## Findings

| source | as written | input that shows it | evidently intended | confidence | as-written member | corrected member |
|---|---|---|---|---|---|---|
| connect_to_peer_async.py:342-347 | when `handle_message` raises inside `download_piece_from_peer`, the `except` around the worker's loop ends the worker without removing the piece from `pieces_in_progress` | an unchoked peer holding piece 0 answers its request with a piece message whose payload has three bytes (Swarm.ShortPieceMessageRaises); the `struct.unpack` of `payload[0:4]` raises | the claim is given up on every outcome, as on the other failure paths, so another worker can fetch the piece and the download can finish | not executed | Swarm.RaisedAttemptLeaksClaim | Swarm.SettleReleasesClaim |
