/**
 * The pure parts of `get_peers_from_tracker` (get_peers.py): reading the
 * announce URL and the byte count `left` out of a decoded metainfo
 * dictionary, the 20-byte peer id, the announce query string and URL, and
 * the tracker's answer, whose `peers` entry is either a compact string of
 * 6-byte records (BEP 23, Tracker Returns Compact Peer Lists) or a list of
 * dictionaries. The HTTP exchange, SHA-1, percent-encoding and the random
 * bytes of the peer id are parameters.
 */
module Tracker {
  import opened Binary
  import opened Bencode

  const QUESTION: Byte := 63   // '?'
  const AMPERSAND: Byte := 38  // '&'
  const EQUALS: Byte := 61     // '='
  const DOT: Byte := 46        // '.'

  /** ASCII text as bytes. */
  function Ascii(s: string): (r: seq<Byte>)
    requires forall k | 0 <= k < |s| :: s[k] as int < 128
    ensures |r| == |s| && forall k | 0 <= k < |s| :: r[k] == s[k] as int
  {
    seq(|s|, k requires 0 <= k < |s| => s[k] as int)
  }

  const ANNOUNCE: seq<Byte> := Ascii("announce")
  const INFO: seq<Byte> := Ascii("info")
  const LENGTH: seq<Byte> := Ascii("length")
  const FILES: seq<Byte> := Ascii("files")
  const FAILURE_REASON: seq<Byte> := Ascii("failure reason")
  const PEERS: seq<Byte> := Ascii("peers")
  const IP: seq<Byte> := Ascii("ip")
  const PORT: seq<Byte> := Ascii("port")
  const PEER_ID_PREFIX: seq<Byte> := Ascii("-PY0001-")

  /** The exceptions `get_peers_from_tracker` raises on malformed input. */
  datatype TrackerError =
    | MissingAnnounce              // ValueError: no `announce` key
    | MissingLength                // ValueError: neither `length` nor `files`
    | TrackerFailure(reason: seq<Byte>)  // ValueError: the tracker's `failure reason`
    | MissingPeers                 // ValueError: no `peers` key
    | BadCompactLength             // ValueError: compact string not a multiple of 6 bytes
    | UnknownPeersFormat           // ValueError: `peers` neither bytes nor a list
    | WrongShape                   // KeyError, TypeError or AttributeError on a value of the wrong kind

  datatype Checked<T> = Accepted(value: T) | Refused(error: TrackerError)

  // ---------------------------------------------------------------------
  // Looking into decoded values
  // ---------------------------------------------------------------------

  /** Whether `t` occurs as a contiguous part of `s` (Python's `t in s` on bytes). */
  predicate HasInfix(s: seq<Byte>, t: seq<Byte>)
    decreases |s|
  {
    |t| <= |s| && (s[..|t|] == t || (s != [] && HasInfix(s[1..], t)))
  }

  /**
   * Python's `key in v` on a decoded value: a key of a dictionary, an item
   * of a list, a part of a byte string; `None` for an integer, which
   * raises.
   */
  function Contains(v: Value, key: seq<Byte>): (r: Option<bool>)
    ensures r.None? <==> v.Int?
    ensures v.Dict? ==> r == Some(key in v.entries)
  {
    match v
    case Int(_) => None
    case Bytes(s) => Some(HasInfix(s, key))
    case List(items) => Some(Bytes(key) in items)
    case Dict(m) => Some(key in m)
  }

  /** `v[key]` when v is a dictionary holding the key; the other cases raise. */
  function Get(v: Value, key: seq<Byte>): (r: Checked<Value>)
    ensures r.Accepted? <==> v.Dict? && key in v.entries
    ensures r.Accepted? ==> r.value == v.entries[key]
    ensures r.Refused? ==> r.error == WrongShape
  {
    if v.Dict? && key in v.entries then Accepted(v.entries[key]) else Refused(WrongShape)
  }

  // ---------------------------------------------------------------------
  // The announce request
  // ---------------------------------------------------------------------

  /**
   * The announce URL and the info dictionary of a decoded metainfo file:
   * `ValueError` when `announce` is absent; an error of the wrong kind when
   * the value cannot be indexed, the URL is not a byte string or `info`
   * is missing.
   */
  function Metainfo(meta: Value): (r: Checked<(seq<Byte>, Value)>)
    ensures r == Refused(MissingAnnounce) <==> Contains(meta, ANNOUNCE) == Some(false)
    ensures r.Accepted? <==> Get(meta, ANNOUNCE).Accepted? && Get(meta, ANNOUNCE).value.Bytes? && Get(meta, INFO).Accepted?
    ensures r.Accepted? ==> Bytes(r.value.0) == meta.entries[ANNOUNCE] && r.value.1 == meta.entries[INFO]
  {
    match Contains(meta, ANNOUNCE)
    case None => Refused(WrongShape)
    case Some(present) =>
      if !present then Refused(MissingAnnounce)
      else
        match Get(meta, ANNOUNCE)
        case Refused(e) => Refused(e)
        case Accepted(url) =>
          if !url.Bytes? then Refused(WrongShape)
          else
            match Get(meta, INFO)
            case Refused(e) => Refused(e)
            case Accepted(info) => Accepted((url.s, info))
  }

  /**
   * `sum(f[b'length'] for f in files)` over the items of `files`: every
   * item must be a dictionary whose `length` is an integer.
   */
  function FilesLength(files: seq<Value>): (r: Checked<int>)
    ensures r.Accepted? <==> forall k | 0 <= k < |files| ::
      Get(files[k], LENGTH).Accepted? && Get(files[k], LENGTH).value.Int?
    ensures r.Refused? ==> r.error == WrongShape
  {
    if files == [] then Accepted(0)
    else
      match Get(files[0], LENGTH)
      case Refused(e) => Refused(e)
      case Accepted(length) =>
        if !length.Int? then Refused(WrongShape)
        else
          match FilesLength(files[1..])
          case Refused(e) => Refused(e)
          case Accepted(rest) => Accepted(length.n + rest)
  }

  /** The lengths of the files, in order, when all are well formed. */
  function LengthsOf(files: seq<Value>): seq<int>
  {
    if files == [] then []
    else if files[0].Dict? && LENGTH in files[0].entries && files[0].entries[LENGTH].Int? then
      [files[0].entries[LENGTH].n] + LengthsOf(files[1..])
    else []
  }

  function Sum(xs: seq<int>): int
  {
    if xs == [] then 0 else xs[0] + Sum(xs[1..])
  }

  /** The sum over well-formed files is the sum of their lengths, in order. */
  lemma {:induction false} FilesLengthIsSum(files: seq<Value>)
    requires FilesLength(files).Accepted?
    ensures |LengthsOf(files)| == |files|
    ensures FilesLength(files).value == Sum(LengthsOf(files))
  {
    if files != [] {
      assert Get(files[0], LENGTH).Accepted?;
      FilesLengthIsSum(files[1..]);
    }
  }

  /**
   * `left`: the `length` of a single-file torrent, otherwise the summed
   * lengths of its `files`; `ValueError` when neither key is there.
   * Iterating `files` over an empty byte string or an empty dictionary
   * sums to zero, as in the source.
   */
  function Left(info: Value): (r: Checked<int>)
    ensures r == Refused(MissingLength) <==> Contains(info, LENGTH) == Some(false) && Contains(info, FILES) == Some(false)
    ensures info.Dict? && LENGTH in info.entries ==>
      (r.Accepted? <==> info.entries[LENGTH].Int?) && (r.Accepted? ==> r.value == info.entries[LENGTH].n)
    ensures info.Dict? && LENGTH !in info.entries && FILES in info.entries && info.entries[FILES].List? ==>
      r == FilesLength(info.entries[FILES].items)
  {
    match Contains(info, LENGTH)
    case None => Refused(WrongShape)
    case Some(single) =>
      if single then
        match Get(info, LENGTH)
        case Refused(e) => Refused(e)
        case Accepted(length) => if length.Int? then Accepted(length.n) else Refused(WrongShape)
      else if Contains(info, FILES) == Some(false) then Refused(MissingLength)
      else
        match Get(info, FILES)
        case Refused(e) => Refused(e)
        case Accepted(files) =>
          match files
          case List(items) => FilesLength(items)
          case Bytes(s) => if s == [] then Accepted(0) else Refused(WrongShape)
          case Dict(m) => if m == map[] then Accepted(0) else Refused(WrongShape)
          case Int(_) => Refused(WrongShape)
  }

  /** The peer id: the 8-byte client prefix, then 12 bytes from `os.urandom`. */
  function PeerId(random: seq<Byte>): (r: seq<Byte>)
    requires |random| == 20 - |PEER_ID_PREFIX|
    ensures |r| == 20 && r[..|PEER_ID_PREFIX|] == PEER_ID_PREFIX && r[|PEER_ID_PREFIX|..] == random
  {
    PEER_ID_PREFIX + random
  }

  // ---------------------------------------------------------------------
  // Joining and splitting on a separator
  // ---------------------------------------------------------------------

  /** `sep.join(parts)`. */
  function JoinWith(parts: seq<seq<Byte>>, sep: Byte): seq<Byte>
  {
    if parts == [] then []
    else if |parts| == 1 then parts[0]
    else parts[0] + [sep] + JoinWith(parts[1..], sep)
  }

  /** `s.split(sep)`: the pieces between occurrences of the separator; always at least one. */
  function SplitOn(s: seq<Byte>, sep: Byte): (r: seq<seq<Byte>>)
    ensures |r| >= 1
    decreases |s|
  {
    match IndexOf(s, sep, 0)
    case None => [s]
    case Some(i) => [s[..i]] + SplitOn(s[i + 1..], sep)
  }

  /** Splitting a join gives the parts back, when no part holds the separator. */
  lemma {:induction false} SplitJoin(parts: seq<seq<Byte>>, sep: Byte)
    requires |parts| >= 1
    requires forall k | 0 <= k < |parts| :: sep !in parts[k]
    ensures SplitOn(JoinWith(parts, sep), sep) == parts
    decreases |parts|
  {
    var head := parts[0];
    if |parts| == 1 {
      assert IndexOf(head, sep, 0) == None;
    } else {
      var tail := JoinWith(parts[1..], sep);
      var s := head + [sep] + tail;
      assert JoinWith(parts, sep) == s;
      IndexOfAt(s, sep, 0, |head|);
      assert s[..|head|] == head && s[|head| + 1..] == tail;
      SplitJoin(parts[1..], sep);
      assert parts == [head] + parts[1..];
    }
  }

  /** `'&'.join(key=value ...)` over the parameters, in order. */
  function QueryString(params: seq<(seq<Byte>, seq<Byte>)>): seq<Byte>
  {
    JoinWith(QueryParts(params), AMPERSAND)
  }

  function QueryParts(params: seq<(seq<Byte>, seq<Byte>)>): (r: seq<seq<Byte>>)
    ensures |r| == |params|
  {
    seq(|params|, k requires 0 <= k < |params| => params[k].0 + [EQUALS] + params[k].1)
  }

  /**
   * The query string loop: one `key=value` part per parameter, in order,
   * joined by `&`. The values come already percent-encoded.
   */
  method BuildQuery(params: seq<(seq<Byte>, seq<Byte>)>) returns (query: seq<Byte>)
    ensures query == QueryString(params)
  {
    var parts: seq<seq<Byte>> := [];
    for k := 0 to |params|
      invariant parts == QueryParts(params[..k])
    {
      var (key, value) := params[k];
      parts := parts + [key + [EQUALS] + value];
    }
    assert params[..|params|] == params;
    query := JoinWith(parts, AMPERSAND);
  }

  /**
   * The query string reads back: split on `&`, then each part on `=`, it
   * gives the keys and values, provided none of them holds either
   * separator (percent-encoding with no safe characters ensures this for
   * the values).
   */
  lemma QueryRoundTrip(params: seq<(seq<Byte>, seq<Byte>)>)
    requires |params| >= 1
    requires forall k | 0 <= k < |params| ::
      AMPERSAND !in params[k].0 && AMPERSAND !in params[k].1 && EQUALS !in params[k].0 && EQUALS !in params[k].1
    ensures var parts := SplitOn(QueryString(params), AMPERSAND);
      |parts| == |params|
      && forall k | 0 <= k < |params| :: SplitOn(parts[k], EQUALS) == [params[k].0, params[k].1]
  {
    var parts := QueryParts(params);
    forall k | 0 <= k < |parts| ensures AMPERSAND !in parts[k] {
      assert parts[k] == params[k].0 + [EQUALS] + params[k].1;
    }
    SplitJoin(parts, AMPERSAND);
    forall k | 0 <= k < |params| ensures SplitOn(parts[k], EQUALS) == [params[k].0, params[k].1] {
      var pair := [params[k].0, params[k].1];
      assert JoinWith(pair, EQUALS) == parts[k];
      SplitJoin(pair, EQUALS);
    }
  }

  /**
   * The parameters of the announce request, in the order the source lists
   * them, each value passed through `quote` (percent-encoding); integers are
   * written in decimal first.
   */
  function AnnounceParams(quote: seq<Byte> -> seq<Byte>, infoHash: seq<Byte>, peerId: seq<Byte>,
                          port: int, left: int, numwant: int): (r: seq<(seq<Byte>, seq<Byte>)>)
    ensures |r| == 9
  {
    [ (Ascii("info_hash"), quote(infoHash)),
      (Ascii("peer_id"), quote(peerId)),
      (Ascii("port"), quote(ShowInt(port))),
      (Ascii("uploaded"), quote(ShowInt(0))),
      (Ascii("downloaded"), quote(ShowInt(0))),
      (Ascii("left"), quote(ShowInt(left))),
      (Ascii("compact"), quote(ShowInt(1))),
      (Ascii("event"), quote(Ascii("started"))),
      (Ascii("numwant"), quote(ShowInt(numwant))) ]
  }

  /**
   * The full announce URL: the query goes after `&` when the announce URL
   * already has a query part, after `?` otherwise.
   */
  function FullUrl(announce: seq<Byte>, query: seq<Byte>): (r: seq<Byte>)
    ensures |r| == |announce| + 1 + |query|
    ensures r[..|announce|] == announce && r[|announce| + 1..] == query
    ensures r[|announce|] == AMPERSAND <==> QUESTION in announce
    ensures r[|announce|] == QUESTION <==> QUESTION !in announce
    ensures QUESTION in r
  {
    var sep := if QUESTION in announce then AMPERSAND else QUESTION;
    var r := announce + [sep] + query;
    assert r[|announce|] == sep;
    r
  }

  /**
   * The announce URL built from a decoded metainfo file: SHA-1 of the
   * re-encoded info dictionary, the peer id from 12 random bytes, `left`,
   * then the query after the announce URL. Refused exactly when reading the
   * metainfo or `left` is.
   */
  function AnnounceUrl(meta: Value, sha1: seq<Byte> -> seq<Byte>, quote: seq<Byte> -> seq<Byte>,
                       random: seq<Byte>, port: int, numwant: int): (r: Checked<seq<Byte>>)
    requires |random| == 20 - |PEER_ID_PREFIX|
    ensures r.Accepted? <==> Metainfo(meta).Accepted? && Left(Metainfo(meta).value.1).Accepted?
    ensures r.Refused? && Metainfo(meta).Refused? ==> r.error == Metainfo(meta).error
    ensures r.Accepted? ==> var announce := Metainfo(meta).value.0;
      |r.value| > |announce| && r.value[..|announce|] == announce
  {
    match Metainfo(meta)
    case Refused(e) => Refused(e)
    case Accepted((announce, info)) =>
      match Left(info)
      case Refused(e) => Refused(e)
      case Accepted(left) =>
        var params := AnnounceParams(quote, sha1(Encode(info)), PeerId(random), port, left, numwant);
        Accepted(FullUrl(announce, QueryString(params)))
  }

  /** A key written in ASCII without `&` or `=` keeps both separators out of its bytes. */
  lemma SeparatorFreeKey(key: string)
    requires forall k | 0 <= k < |key| :: key[k] as int < 128 && key[k] != '&' && key[k] != '='
    ensures AMPERSAND !in Ascii(key) && EQUALS !in Ascii(key)
  {
  }

  /** No key or encoded value of the announce parameters holds `&` or `=`, given such an encoding. */
  lemma ParamsSeparatorFree(quote: seq<Byte> -> seq<Byte>, infoHash: seq<Byte>, peerId: seq<Byte>,
                            port: int, left: int, numwant: int)
    requires forall x :: AMPERSAND !in quote(x) && EQUALS !in quote(x)
    ensures var params := AnnounceParams(quote, infoHash, peerId, port, left, numwant);
      forall k | 0 <= k < |params| ::
        AMPERSAND !in params[k].0 && AMPERSAND !in params[k].1 && EQUALS !in params[k].0 && EQUALS !in params[k].1
  {
    SeparatorFreeKey("info_hash");
    SeparatorFreeKey("peer_id");
    SeparatorFreeKey("port");
    SeparatorFreeKey("uploaded");
    SeparatorFreeKey("downloaded");
    SeparatorFreeKey("left");
    SeparatorFreeKey("compact");
    SeparatorFreeKey("event");
    SeparatorFreeKey("numwant");
  }

  /**
   * The query of the announce URL reads back: after the announce URL and
   * its separator, splitting on `&` and `=` gives the nine keys in order,
   * each with its percent-encoded value, whenever the encoding leaves
   * neither separator in a value.
   */
  lemma AnnounceUrlReadsBack(meta: Value, sha1: seq<Byte> -> seq<Byte>, quote: seq<Byte> -> seq<Byte>,
                             random: seq<Byte>, port: int, numwant: int)
    requires |random| == 20 - |PEER_ID_PREFIX|
    requires forall x :: AMPERSAND !in quote(x) && EQUALS !in quote(x)
    requires AnnounceUrl(meta, sha1, quote, random, port, numwant).Accepted?
    ensures var url := AnnounceUrl(meta, sha1, quote, random, port, numwant).value;
      var (announce, info) := Metainfo(meta).value;
      var params := AnnounceParams(quote, sha1(Encode(info)), PeerId(random), port, Left(info).value, numwant);
      var parts := SplitOn(url[|announce| + 1..], AMPERSAND);
      |parts| == 9 && forall k | 0 <= k < 9 :: SplitOn(parts[k], EQUALS) == [params[k].0, params[k].1]
  {
    var (announce, info) := Metainfo(meta).value;
    var params := AnnounceParams(quote, sha1(Encode(info)), PeerId(random), port, Left(info).value, numwant);
    ParamsSeparatorFree(quote, sha1(Encode(info)), PeerId(random), port, Left(info).value, numwant);
    QueryRoundTrip(params);
  }

  // ---------------------------------------------------------------------
  // The tracker's answer
  // ---------------------------------------------------------------------

  /** A peer as the tracker lists it: its address as text and its port. */
  datatype Endpoint = Endpoint(ip: seq<Byte>, port: int)

  /** `'.'.join(map(str, ip_bytes))`: each byte in decimal, dot-separated. */
  function DottedQuad(ip: seq<Byte>): seq<Byte>
  {
    JoinWith(DecimalParts(ip), DOT)
  }

  function DecimalParts(ip: seq<Byte>): (r: seq<seq<Byte>>)
    ensures |r| == |ip| && forall k | 0 <= k < |ip| :: r[k] == NatDigits(ip[k])
  {
    seq(|ip|, k requires 0 <= k < |ip| => NatDigits(ip[k]))
  }

  /** Reading dotted decimal text back into bytes, `None` when a part is not a byte in decimal. */
  function ParseDotted(s: seq<Byte>): (r: Option<seq<Byte>>)
  {
    var parts := SplitOn(s, DOT);
    if forall k | 0 <= k < |parts| :: AllDigits(parts[k]) && DigitsValue(parts[k]) < 256 then
      Some(seq(|parts|, k requires 0 <= k < |parts| => DigitsValue(parts[k])))
    else None
  }

  /** The address text of a compact record determines the address bytes. */
  lemma DottedQuadParses(ip: seq<Byte>)
    requires |ip| >= 1
    ensures ParseDotted(DottedQuad(ip)) == Some(ip)
  {
    var parts := DecimalParts(ip);
    forall k | 0 <= k < |parts| ensures DOT !in parts[k] {
      assert AllDigits(parts[k]);
    }
    SplitJoin(parts, DOT);
    forall k | 0 <= k < |parts| ensures DigitsValue(parts[k]) == ip[k] {
      DigitsValueOfNatDigits(ip[k]);
    }
    assert seq(|parts|, k requires 0 <= k < |parts| => DigitsValue(parts[k])) == ip;
  }

  /** The peers of a compact string: one per 6-byte record, in order. */
  function CompactPeers(s: seq<Byte>): (r: seq<Endpoint>)
    requires |s| % 6 == 0
    decreases |s|
  {
    if s == [] then []
    else [Endpoint(DottedQuad(s[..4]), FromBigEndian(s[4..6]))] + CompactPeers(s[6..])
  }

  /** The k-th peer comes from bytes 6k to 6k+6: four address bytes, then a big-endian port. */
  lemma {:induction false} CompactPeersAt(s: seq<Byte>, k: nat)
    requires |s| % 6 == 0 && k < |s| / 6
    ensures |CompactPeers(s)| == |s| / 6
    ensures CompactPeers(s)[k] == Endpoint(DottedQuad(s[6 * k..6 * k + 4]), FromBigEndian(s[6 * k + 4..6 * k + 6]))
    decreases |s|
  {
    if k == 0 {
      CompactPeersLength(s);
    } else {
      CompactPeersAt(s[6..], k - 1);
      assert s[6..][6 * (k - 1)..6 * (k - 1) + 4] == s[6 * k..6 * k + 4];
      assert s[6..][6 * (k - 1) + 4..6 * (k - 1) + 6] == s[6 * k + 4..6 * k + 6];
    }
  }

  lemma {:induction false} CompactPeersLength(s: seq<Byte>)
    requires |s| % 6 == 0
    ensures |CompactPeers(s)| == |s| / 6
    decreases |s|
  {
    if s != [] {
      CompactPeersLength(s[6..]);
    }
  }

  /** Two multiples of six, the first below the second, are at least six apart. */
  lemma SixApart(i: nat, n: nat)
    requires i % 6 == 0 && n % 6 == 0 && i < n
    ensures i + 6 <= n && (n - i) % 6 == 0 && (n - i - 6) % 6 == 0 && (i + 6) % 6 == 0
  {
    assert i == 6 * (i / 6) && n == 6 * (n / 6);
  }

  /** The record at offset i, split off the rest of a compact string. */
  lemma CompactPeersFrom(s: seq<Byte>, i: nat)
    requires |s| % 6 == 0 && i % 6 == 0 && i < |s|
    ensures i + 6 <= |s| && (i + 6) % 6 == 0
    ensures CompactPeers(s[i..])
            == [Endpoint(DottedQuad(s[i..i + 4]), FromBigEndian(s[i + 4..i + 6]))] + CompactPeers(s[i + 6..])
  {
    SixApart(i, |s|);
    assert s[i..][..4] == s[i..i + 4] && s[i..][4..6] == s[i + 4..i + 6] && s[i..][6..] == s[i + 6..];
  }

  /** Concatenation of endpoint lists regroups freely. */
  lemma EndpointsAssoc(a: seq<Endpoint>, b: seq<Endpoint>, c: seq<Endpoint>)
    ensures (a + b) + c == a + (b + c)
  {
  }

  /** The compact decoding loop, six bytes per step. */
  method DecodeCompact(s: seq<Byte>) returns (peers: seq<Endpoint>)
    requires |s| % 6 == 0
    ensures peers == CompactPeers(s)
  {
    peers := [];
    var i := 0;
    while i < |s|
      invariant i <= |s| && i % 6 == 0
      invariant peers + CompactPeers(s[i..]) == CompactPeers(s)
      decreases |s| - i
    {
      var ipBytes := s[i..i + 4];
      var portBytes := s[i + 4..i + 6];
      var peer := Endpoint(DottedQuad(ipBytes), FromBigEndian(portBytes));
      CompactPeersFrom(s, i);
      EndpointsAssoc(peers, [peer], CompactPeers(s[i + 6..]));
      peers := peers + [peer];
      i := i + 6;
    }
    assert s[i..] == [];
    assert peers + [] == peers;
  }

  /** The compact string for a list of 4-byte addresses and ports. */
  function EncodeCompact(addrs: seq<(seq<Byte>, nat)>): (r: seq<Byte>)
    requires forall k | 0 <= k < |addrs| :: |addrs[k].0| == 4 && addrs[k].1 < 0x1_0000
    ensures |r| == 6 * |addrs|
  {
    if addrs == [] then [] else addrs[0].0 + BigEndian(addrs[0].1, 2) + EncodeCompact(addrs[1..])
  }

  /** The endpoints the tracker means by a list of 4-byte addresses and ports. */
  function EndpointsOf(addrs: seq<(seq<Byte>, nat)>): (r: seq<Endpoint>)
    ensures |r| == |addrs|
  {
    if addrs == [] then [] else [Endpoint(DottedQuad(addrs[0].0), addrs[0].1)] + EndpointsOf(addrs[1..])
  }

  /** Decoding the compact string of a list of addresses gives them back, in order. */
  lemma {:induction false} CompactRoundTrip(addrs: seq<(seq<Byte>, nat)>)
    requires forall k | 0 <= k < |addrs| :: |addrs[k].0| == 4 && addrs[k].1 < 0x1_0000
    ensures CompactPeers(EncodeCompact(addrs)) == EndpointsOf(addrs)
  {
    if addrs != [] {
      var s := EncodeCompact(addrs);
      var ip := addrs[0].0;
      var port := addrs[0].1;
      var tail := EncodeCompact(addrs[1..]);
      var be := BigEndian(port, 2);
      assert s == ip + be + tail;
      assert s[..4] == ip && s[4..6] == be && s[6..] == tail;
      assert Pow256(2) == 0x1_0000;
      FromBigEndianOf(port, 2);
      CompactRoundTrip(addrs[1..]);
    }
  }

  /** One dictionary of a list-form answer: its `ip` (a byte string) and its `port`. */
  function EndpointOf(v: Value): (r: Checked<Endpoint>)
    ensures r.Accepted? <==> v.Dict? && IP in v.entries && v.entries[IP].Bytes? && PORT in v.entries && v.entries[PORT].Int?
    ensures r.Accepted? ==> r.value == Endpoint(v.entries[IP].s, v.entries[PORT].n)
    ensures r.Refused? ==> r.error == WrongShape
  {
    match Get(v, IP)
    case Refused(e) => Refused(e)
    case Accepted(ip) =>
      if !ip.Bytes? then Refused(WrongShape)
      else
        match Get(v, PORT)
        case Refused(e) => Refused(e)
        case Accepted(port) => if port.Int? then Accepted(Endpoint(ip.s, port.n)) else Refused(WrongShape)
  }

  /** The peers of a list-form answer, in order; the first malformed item raises. */
  function ListedPeers(items: seq<Value>): (r: Checked<seq<Endpoint>>)
    ensures r.Refused? ==> r.error == WrongShape
  {
    if items == [] then Accepted([])
    else
      match EndpointOf(items[0])
      case Refused(e) => Refused(e)
      case Accepted(p) =>
        match ListedPeers(items[1..])
        case Refused(e) => Refused(e)
        case Accepted(rest) => Accepted([p] + rest)
  }

  /** A list-form answer is accepted exactly when every item is, and then lists them in order. */
  lemma {:induction false} ListedPeersMeans(items: seq<Value>)
    ensures ListedPeers(items).Accepted? <==> forall k | 0 <= k < |items| :: EndpointOf(items[k]).Accepted?
    ensures ListedPeers(items).Accepted? ==>
      |ListedPeers(items).value| == |items|
      && forall k | 0 <= k < |items| :: ListedPeers(items).value[k] == EndpointOf(items[k]).value
  {
    if items != [] {
      ListedPeersMeans(items[1..]);
      if EndpointOf(items[0]).Accepted? && ListedPeers(items[1..]).Accepted? {
        var r := ListedPeers(items).value;
        forall k | 1 <= k < |items| ensures r[k] == EndpointOf(items[k]).value {
          assert items[k] == items[1..][k - 1];
        }
      }
      if forall k | 0 <= k < |items| :: EndpointOf(items[k]).Accepted? {
        assert forall k | 0 <= k < |items| - 1 :: items[1..][k] == items[k + 1];
      }
    }
  }

  /** The list-form loop, one dictionary per step. */
  method DecodePeerList(items: seq<Value>) returns (r: Checked<seq<Endpoint>>)
    ensures r == ListedPeers(items)
  {
    ListedPeersMeans(items);
    var peers: seq<Endpoint> := [];
    for k := 0 to |items|
      invariant |peers| == k
      invariant forall j | 0 <= j < k :: EndpointOf(items[j]).Accepted? && peers[j] == EndpointOf(items[j]).value
    {
      var p := EndpointOf(items[k]);
      if p.Refused? {
        return Refused(p.error);
      }
      peers := peers + [p.value];
    }
    assert ListedPeers(items).Accepted?;
    assert peers == ListedPeers(items).value;
    return Accepted(peers);
  }

  /**
   * The peers of the tracker's decoded answer: its `failure reason` is
   * raised first; then `peers` must be present and be a compact string of
   * whole 6-byte records or a list of dictionaries.
   */
  function PeersOf(resp: Value): (r: Checked<seq<Endpoint>>)
  {
    match Contains(resp, FAILURE_REASON)
    case None => Refused(WrongShape)
    case Some(failed) =>
      if failed then
        match Get(resp, FAILURE_REASON)
        case Refused(e) => Refused(e)
        case Accepted(reason) => if reason.Bytes? then Refused(TrackerFailure(reason.s)) else Refused(WrongShape)
      else if Contains(resp, PEERS) == Some(false) then Refused(MissingPeers)
      else
        match Get(resp, PEERS)
        case Refused(e) => Refused(e)
        case Accepted(peers) =>
          match peers
          case Bytes(s) => if |s| % 6 != 0 then Refused(BadCompactLength) else Accepted(CompactPeers(s))
          case List(items) => ListedPeers(items)
          case _ => Refused(UnknownPeersFormat)
  }

  /** Reading the peers out of the tracker's answer, with the two loops above. */
  method PeersFromResponse(resp: Value) returns (r: Checked<seq<Endpoint>>)
    ensures r == PeersOf(resp)
  {
    var failed := Contains(resp, FAILURE_REASON);
    if failed.None? {
      return Refused(WrongShape);
    }
    if failed.value {
      var reason := Get(resp, FAILURE_REASON);
      if reason.Refused? {
        return Refused(reason.error);
      }
      if !reason.value.Bytes? {
        return Refused(WrongShape);
      }
      return Refused(TrackerFailure(reason.value.s));
    }
    if Contains(resp, PEERS) == Some(false) {
      return Refused(MissingPeers);
    }
    var peers := Get(resp, PEERS);
    if peers.Refused? {
      return Refused(peers.error);
    }
    match peers.value {
      case Bytes(s) =>
        if |s| % 6 != 0 {
          return Refused(BadCompactLength);
        }
        var list := DecodeCompact(s);
        return Accepted(list);
      case List(items) =>
        r := DecodePeerList(items);
      case _ =>
        return Refused(UnknownPeersFormat);
    }
  }

  /** A dictionary answer with a `failure reason` byte string is refused with that reason, whatever else it holds. */
  lemma FailureReasonWins(m: map<seq<Byte>, Value>, reason: seq<Byte>)
    requires FAILURE_REASON in m && m[FAILURE_REASON] == Bytes(reason)
    ensures PeersOf(Dict(m)) == Refused(TrackerFailure(reason))
  {
  }

  /**
   * A dictionary answer without `failure reason` whose `peers` is the
   * compact string of some addresses yields those addresses, in order.
   */
  lemma CompactAnswer(m: map<seq<Byte>, Value>, addrs: seq<(seq<Byte>, nat)>)
    requires forall k | 0 <= k < |addrs| :: |addrs[k].0| == 4 && addrs[k].1 < 0x1_0000
    requires FAILURE_REASON !in m && PEERS in m && m[PEERS] == Bytes(EncodeCompact(addrs))
    ensures PeersOf(Dict(m)) == Accepted(EndpointsOf(addrs))
  {
    CompactRoundTrip(addrs);
  }

  /**
   * A dictionary answer without `failure reason`: `ValueError` without
   * `peers`; a list is read item by item; an integer or a dictionary is
   * an unknown format.
   */
  lemma PeersOfDictionary(m: map<seq<Byte>, Value>)
    requires FAILURE_REASON !in m
    ensures PEERS !in m ==> PeersOf(Dict(m)) == Refused(MissingPeers)
    ensures PEERS in m && m[PEERS].List? ==> PeersOf(Dict(m)) == ListedPeers(m[PEERS].items)
    ensures PEERS in m && (m[PEERS].Int? || m[PEERS].Dict?) ==> PeersOf(Dict(m)) == Refused(UnknownPeersFormat)
  {
  }

  /** The peers answer is refused when the compact string is not made of whole 6-byte records. */
  lemma RaggedCompactRefused(m: map<seq<Byte>, Value>, s: seq<Byte>)
    requires FAILURE_REASON !in m && PEERS in m && m[PEERS] == Bytes(s) && |s| % 6 != 0
    ensures PeersOf(Dict(m)) == Refused(BadCompactLength)
  {
  }
}
