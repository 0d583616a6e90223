/**
 * The bencoding codec of `parser.py` ("bencoding" in BEP 3, The BitTorrent
 * Protocol Specification).
 *
 * The decoder is a family of cursor-advancing parsers over a byte string.
 * `parse_int`, `parse_str` and the dispatch of `parse_any` are modelled by
 * the functions ParseInt, ParseStr and ValueAt; the two loops of
 * `parse_list` and `parse_dict` by the methods ParseList and ParseDict,
 * which are proved equal to the specification functions ListAt and DictAt.
 * The encoder `bencode` is the function Encode.
 *
 * The decoder keeps the source's leniencies: a byte string whose declared
 * length runs past the end of the input is cut short rather than rejected,
 * and a list or dictionary that reaches the end of the input without its
 * closing `e` is accepted. Lemmas at the end of the module state both.
 */
module Bencode {
  import opened Binary
  import opened Ordering

  /** A decoded value: Python's int, bytes, list and dict (byte-string keys). */
  datatype Value =
    | Int(n: int)
    | Bytes(s: seq<Byte>)
    | List(items: seq<Value>)
    | Dict(entries: map<seq<Byte>, Value>)

  /** The ways `bdecode` raises; `at` is the cursor where it happened. */
  datatype DecodeError =
    | EmptyInput
    | IndexOutOfRange(at: nat)        // `data[i]` with i past the end (IndexError)
    | MissingDelimiter(from: nat, delimiter: Byte)  // `data.index(...)` found nothing
    | BadNumber(at: nat)              // `int(...)` refused the text
    | NegativeLength(at: nat)         // a string length below zero (see README)
    | InvalidType(at: nat)            // no value starts with this byte
    | ExtraData(at: nat)              // the root value ended before the input

  datatype Result<T> = Ok(value: T) | Err(error: DecodeError)

  const INT_TAG: Byte := 105   // 'i'
  const LIST_TAG: Byte := 108  // 'l'
  const DICT_TAG: Byte := 100  // 'd'
  const END: Byte := 101       // 'e'
  const COLON: Byte := 58      // ':'

  /**
   * `chr(b).isdigit()`: the ASCII digits, and also the Latin-1 superscripts
   * two, three and one (bytes 178, 179 and 185), which Python counts as
   * digits. A string length starting with one of those is then refused by
   * `int(...)`.
   */
  predicate IsDigitChar(b: Byte)
  {
    IsDigit(b) || b == 178 || b == 179 || b == 185
  }

  /** Bytes that `parse_any` accepts as the first byte of a value. */
  predicate StartsValue(b: Byte)
  {
    b == INT_TAG || b == LIST_TAG || b == DICT_TAG || IsDigitChar(b)
  }

  /** The first byte of a value's encoding tells its kind. */
  predicate TagMatches(b: Byte, v: Value)
  {
    match v
    case Int(_) => b == INT_TAG
    case Bytes(_) => IsDigit(b)
    case List(_) => b == LIST_TAG
    case Dict(_) => b == DICT_TAG
  }

  // ---------------------------------------------------------------------
  // Encoder (`bencode`)
  // ---------------------------------------------------------------------

  /** `str(len(s)).encode() + b':' + s` */
  function EncodeBytes(s: seq<Byte>): seq<Byte>
  {
    NatDigits(|s|) + [COLON] + s
  }

  function Encode(v: Value): (r: seq<Byte>)
    decreases v
  {
    match v
    case Int(n) => [INT_TAG] + ShowInt(n) + [END]
    case Bytes(s) => EncodeBytes(s)
    case List(items) => [LIST_TAG] + EncodeItems(items) + [END]
    case Dict(m) => [DICT_TAG] + EncodeEntries(m, SortedKeys(m.Keys)) + [END]
  }

  /** The list body: each item's encoding, in order. */
  function EncodeItems(items: seq<Value>): seq<Byte>
  {
    if items == [] then [] else Encode(items[0]) + EncodeItems(items[1..])
  }

  /** Every key listed in ks has an entry in m. */
  predicate KeysIn(ks: seq<seq<Byte>>, m: map<seq<Byte>, Value>)
  {
    forall j | 0 <= j < |ks| :: ks[j] in m
  }

  /** The dictionary body: key then value, for the keys of `ks` in that order. */
  function EncodeEntries(m: map<seq<Byte>, Value>, ks: seq<seq<Byte>>): seq<Byte>
    requires KeysIn(ks, m)
    decreases Dict(m), |ks|
  {
    if ks == [] then [] else EncodeBytes(ks[0]) + Encode(m[ks[0]]) + EncodeEntries(m, ks[1..])
  }

  /** Every encoding is non-empty and opens with the tag of its kind. */
  lemma EncodeTag(v: Value)
    ensures |Encode(v)| >= 1 && TagMatches(Encode(v)[0], v) && StartsValue(Encode(v)[0])
  {
  }

  /**
   * A dictionary is written as `d`, its entries in strictly ascending key
   * order, and `e`: the encoding depends only on the mapping itself.
   */
  lemma EncodeDictInKeyOrder(m: map<seq<Byte>, Value>)
    ensures var ks := SortedKeys(m.Keys);
      && StrictlyAscending(ks) && (forall k :: k in ks <==> k in m)
      && Encode(Dict(m)) == [DICT_TAG] + EncodeEntries(m, ks) + [END]
  {
    SortedKeysAscending(m.Keys);
    SortedKeysMembers(m.Keys);
  }

  // ---------------------------------------------------------------------
  // Decoder: specification functions
  // ---------------------------------------------------------------------

  /**
   * `parse_int`: the text between the `i` at `i` and the first `e` after it
   * is a decimal number; the cursor moves just past that `e`.
   */
  function ParseInt(data: seq<Byte>, i: nat): (r: Result<(Value, nat)>)
    requires i < |data| && data[i] == INT_TAG
    ensures r.Ok? ==> r.value.0.Int? && i + 2 <= r.value.1 <= |data|
  {
    match IndexOf(data, END, i + 1)
    case None => Err(MissingDelimiter(i + 1, END))
    case Some(j) =>
      match ParseDecimal(data[i + 1..j])
      case None => Err(BadNumber(i + 1))
      case Some(n) => Ok((Int(n), j + 1))
  }

  /**
   * `parse_str`: the decimal length before the first `:`, then that many
   * bytes, cut short at the end of the input as Python's slice is; the
   * cursor moves to `:` + 1 + length even when that is past the end.
   */
  function ParseStr(data: seq<Byte>, i: nat): (r: Result<(seq<Byte>, nat)>)
    ensures r.Ok? ==> i < r.value.1
  {
    match IndexOf(data, COLON, i)
    case None => Err(MissingDelimiter(i, COLON))
    case Some(c) =>
      match ParseDecimal(data[i..c])
      case None => Err(BadNumber(i))
      case Some(n) =>
        if n < 0 then Err(NegativeLength(i))
        else
          var stop := if c + 1 + n <= |data| then c + 1 + n else |data|;
          Ok((data[c + 1..stop], c + 1 + n))
  }

  /**
   * What `parse_int` accepts: the text up to the first `e` after the `i` is
   * a decimal number, and the cursor lands just past that `e`. A missing `e`
   * is reported as such.
   */
  lemma ParseIntReads(data: seq<Byte>, i: nat)
    requires i < |data| && data[i] == INT_TAG
    ensures ParseInt(data, i).Ok? <==> exists j :: (i < j < |data| && data[j] == END
      && (forall k | i < k < j :: data[k] != END) && ParseDecimal(data[i + 1..j]).Some?)
    ensures ParseInt(data, i).Ok? ==> exists j :: (i < j < |data| && data[j] == END
      && (forall k | i < k < j :: data[k] != END)
      && ParseInt(data, i).value == (Int(ParseDecimal(data[i + 1..j]).value), j + 1))
    ensures IndexOf(data, END, i + 1).None? ==> ParseInt(data, i) == Err(MissingDelimiter(i + 1, END))
  {
    match IndexOf(data, END, i + 1)
    case None =>
    case Some(j) =>
      forall j' | i < j' < |data| && data[j'] == END && (forall k | i < k < j' :: data[k] != END)
        ensures j' == j
      {
      }
  }

  /**
   * What `parse_str` accepts: a non-negative decimal length n before the
   * first `:`, then n bytes, cut short at the end of the input; the cursor
   * lands n bytes after the `:` even when that is past the end.
   */
  lemma ParseStrReads(data: seq<Byte>, i: nat)
    ensures ParseStr(data, i).Ok? ==> exists c, n: nat :: (i <= c < |data| && data[c] == COLON
      && (forall k | i <= k < c :: data[k] != COLON)
      && ParseDecimal(data[i..c]) == Some(n)
      && ParseStr(data, i).value == (data[c + 1..if c + 1 + n <= |data| then c + 1 + n else |data|], c + 1 + n))
    ensures (IndexOf(data, COLON, i).Some? && ParseDecimal(data[i..IndexOf(data, COLON, i).value]).Some?
      && ParseDecimal(data[i..IndexOf(data, COLON, i).value]).value >= 0) ==> ParseStr(data, i).Ok?
  {
  }

  /**
   * `parse_any`: dispatch on the byte at the cursor. Fails with InvalidType
   * for a byte that starts no value, and on success the value's kind is the
   * one its first byte announces and the cursor has advanced.
   */
  function ValueAt(data: seq<Byte>, i: nat): (r: Result<(Value, nat)>)
    ensures i >= |data| ==> r == Err(IndexOutOfRange(i))
    ensures i < |data| && !StartsValue(data[i]) ==> r == Err(InvalidType(i))
    ensures r.Ok? ==> i < |data| && i < r.value.1 && TagMatches(data[i], r.value.0)
    decreases |data| - i, 1
  {
    if i >= |data| then Err(IndexOutOfRange(i))
    else if data[i] == INT_TAG then ParseInt(data, i)
    else if data[i] == LIST_TAG then ListAt(data, i)
    else if data[i] == DICT_TAG then DictAt(data, i)
    else if IsDigitChar(data[i]) then
      match ParseStr(data, i)
      case Err(e) => Err(e)
      case Ok((s, j)) => Ok((Bytes(s), j))
    else Err(InvalidType(i))
  }

  /** `parse_list`: the items after the `l`, and the cursor past the stop byte. */
  function ListAt(data: seq<Byte>, i: nat): (r: Result<(Value, nat)>)
    requires i < |data| && data[i] == LIST_TAG
    ensures r.Ok? ==> r.value.0.List? && i < r.value.1
    decreases |data| - i, 0
  {
    match ItemsFrom(data, i + 1)
    case Err(e) => Err(e)
    case Ok((items, j)) => Ok((List(items), j + 1))
  }

  /**
   * The loop of `parse_list` from cursor i: values up to the first `e` at a
   * value boundary or up to the end of the input, whichever comes first.
   */
  function ItemsFrom(data: seq<Byte>, i: nat): (r: Result<(seq<Value>, nat)>)
    ensures r.Ok? ==> i <= r.value.1 && (r.value.1 >= |data| || data[r.value.1] == END)
    decreases |data| - i, 2
  {
    if i >= |data| || data[i] == END then Ok(([], i))
    else
      match ValueAt(data, i)
      case Err(e) => Err(e)
      case Ok((v, j)) =>
        match ItemsFrom(data, j)
        case Err(e) => Err(e)
        case Ok((vs, k)) => Ok(([v] + vs, k))
  }

  /** `parse_dict`: the entries after the `d`, and the cursor past the stop byte. */
  function DictAt(data: seq<Byte>, i: nat): (r: Result<(Value, nat)>)
    requires i < |data| && data[i] == DICT_TAG
    ensures r.Ok? ==> r.value.0.Dict? && i < r.value.1
    decreases |data| - i, 0
  {
    match EntriesFrom(data, i + 1)
    case Err(e) => Err(e)
    case Ok((m, j)) => Ok((Dict(m), j + 1))
  }

  /**
   * The loop of `parse_dict` from cursor i: key/value pairs up to `e` or the
   * end of the input; a key seen again later keeps its later value
   * (`d[key] = val`).
   */
  function EntriesFrom(data: seq<Byte>, i: nat): (r: Result<(map<seq<Byte>, Value>, nat)>)
    ensures r.Ok? ==> i <= r.value.1 && (r.value.1 >= |data| || data[r.value.1] == END)
    decreases |data| - i, 2
  {
    if i >= |data| || data[i] == END then Ok((map[], i))
    else
      match ParseStr(data, i)
      case Err(e) => Err(e)
      case Ok((key, j)) =>
        match ValueAt(data, j)
        case Err(e) => Err(e)
        case Ok((v, k)) =>
          match EntriesFrom(data, k)
          case Err(e) => Err(e)
          case Ok((rest, stop)) => Ok((map[key := v] + rest, stop))
  }

  /**
   * `bdecode`: empty input is refused; otherwise the root value is parsed at
   * 0 and refused only if it stopped before the last byte.
   */
  function Decode(data: seq<Byte>): (r: Result<Value>)
    ensures data == [] ==> r == Err(EmptyInput)
    ensures r.Ok? ==> exists stop :: ValueAt(data, 0) == Ok((r.value, stop)) && stop >= |data| > 0
    ensures r.Err? && data != [] ==> ValueAt(data, 0).Err? || ValueAt(data, 0).value.1 < |data|
  {
    if data == [] then Err(EmptyInput)
    else
      match ValueAt(data, 0)
      case Err(e) => Err(e)
      case Ok((v, stop)) => if stop < |data| then Err(ExtraData(stop)) else Ok(v)
  }

  // ---------------------------------------------------------------------
  // Decoder: the source's imperative loops
  // ---------------------------------------------------------------------

  function WrapList(prefix: seq<Value>, r: Result<(seq<Value>, nat)>): Result<(Value, nat)>
  {
    match r
    case Err(e) => Err(e)
    case Ok((rest, k)) => Ok((List(prefix + rest), k + 1))
  }

  function WrapDict(prefix: map<seq<Byte>, Value>, r: Result<(map<seq<Byte>, Value>, nat)>): Result<(Value, nat)>
  {
    match r
    case Err(e) => Err(e)
    case Ok((rest, k)) => Ok((Dict(prefix + rest), k + 1))
  }

  /** `parse_any`, calling the looping list and dictionary parsers. */
  method ParseAny(data: seq<Byte>, i: nat) returns (r: Result<(Value, nat)>)
    ensures r == ValueAt(data, i)
    decreases |data| - i, 1
  {
    if i >= |data| {
      return Err(IndexOutOfRange(i));
    }
    if data[i] == INT_TAG {
      r := ParseInt(data, i);
    } else if data[i] == LIST_TAG {
      r := ParseList(data, i);
    } else if data[i] == DICT_TAG {
      r := ParseDict(data, i);
    } else if IsDigitChar(data[i]) {
      var s := ParseStr(data, i);
      match s {
        case Err(e) => r := Err(e);
        case Ok((bytes, j)) => r := Ok((Bytes(bytes), j));
      }
    } else {
      r := Err(InvalidType(i));
    }
  }

  /** `parse_list`: append values to `arr` until `e` or the end of input. */
  method ParseList(data: seq<Byte>, i: nat) returns (r: Result<(Value, nat)>)
    requires i < |data| && data[i] == LIST_TAG
    ensures r == ListAt(data, i)
    decreases |data| - i, 0
  {
    var j := i + 1;
    var arr: seq<Value> := [];
    if ItemsFrom(data, j).Ok? {
      assert arr + ItemsFrom(data, j).value.0 == ItemsFrom(data, j).value.0;
    }
    while j < |data| && data[j] != END
      invariant i < j
      invariant ListAt(data, i) == WrapList(arr, ItemsFrom(data, j))
      decreases |data| - j
    {
      var item := ParseAny(data, j);
      match item {
        case Err(e) =>
          return Err(e);
        case Ok((v, next)) =>
          assert ItemsFrom(data, j) == (match ItemsFrom(data, next)
            case Err(e) => Err(e)
            case Ok((vs, k)) => Ok(([v] + vs, k)));
          if ItemsFrom(data, next).Ok? {
            assert arr + ([v] + ItemsFrom(data, next).value.0) == (arr + [v]) + ItemsFrom(data, next).value.0;
          }
          arr := arr + [v];
          j := next;
      }
    }
    assert arr + [] == arr;
    r := Ok((List(arr), j + 1));
  }

  /** `parse_dict`: read key and value, store `d[key] = val`, until `e` or the end. */
  method ParseDict(data: seq<Byte>, i: nat) returns (r: Result<(Value, nat)>)
    requires i < |data| && data[i] == DICT_TAG
    ensures r == DictAt(data, i)
    decreases |data| - i, 0
  {
    var j := i + 1;
    var d: map<seq<Byte>, Value> := map[];
    if EntriesFrom(data, j).Ok? {
      assert d + EntriesFrom(data, j).value.0 == EntriesFrom(data, j).value.0;
    }
    while j < |data| && data[j] != END
      invariant i < j
      invariant DictAt(data, i) == WrapDict(d, EntriesFrom(data, j))
      decreases |data| - j
    {
      var key := ParseStr(data, j);
      match key {
        case Err(e) =>
          return Err(e);
        case Ok((k, afterKey)) =>
          var item := ParseAny(data, afterKey);
          match item {
            case Err(e) =>
              return Err(e);
            case Ok((v, next)) =>
              EntriesFromStep(data, j, d, k, afterKey, v, next);
              d := d[k := v];
              j := next;
          }
      }
    }
    assert d + map[] == d;
    r := Ok((Dict(d), j + 1));
  }

  /** One round of the `parse_dict` loop, seen from the accumulated dictionary. */
  lemma EntriesFromStep(data: seq<Byte>, j: nat, d: map<seq<Byte>, Value>,
                        k: seq<Byte>, afterKey: nat, v: Value, next: nat)
    requires j < |data| && data[j] != END
    requires ParseStr(data, j) == Ok((k, afterKey)) && ValueAt(data, afterKey) == Ok((v, next))
    ensures WrapDict(d, EntriesFrom(data, j)) == WrapDict(d[k := v], EntriesFrom(data, next))
  {
    var tail := EntriesFrom(data, next);
    assert EntriesFrom(data, j) == StoreFirst(k, v, tail);
    WrapDictStoreFirst(d, k, v, tail);
  }

  /** The entries parsed after reading `k: v`: `{k: v}` merged with the rest. */
  function StoreFirst(k: seq<Byte>, v: Value, tail: Result<(map<seq<Byte>, Value>, nat)>): Result<(map<seq<Byte>, Value>, nat)>
  {
    match tail
    case Err(e) => Err(e)
    case Ok((rest, stop)) => Ok((map[k := v] + rest, stop))
  }

  lemma WrapDictStoreFirst(d: map<seq<Byte>, Value>, k: seq<Byte>, v: Value, tail: Result<(map<seq<Byte>, Value>, nat)>)
    ensures WrapDict(d, StoreFirst(k, v, tail)) == WrapDict(d[k := v], tail)
  {
    if tail.Ok? {
      UpdateThenUnion(d, k, v, tail.value.0);
    }
  }

  /** Storing k then merging the rest is merging `{k: v}` and the rest. */
  lemma UpdateThenUnion<K, V>(d: map<K, V>, k: K, v: V, rest: map<K, V>)
    ensures d + (map[k := v] + rest) == d[k := v] + rest
  {
  }

  /** `bdecode` */
  method BDecode(data: seq<Byte>) returns (r: Result<Value>)
    ensures r == Decode(data)
  {
    if data == [] {
      return Err(EmptyInput);
    }
    var root := ParseAny(data, 0);
    match root {
      case Err(e) => r := Err(e);
      case Ok((v, stop)) =>
        if stop < |data| {
          r := Err(ExtraData(stop));
        } else {
          r := Ok(v);
        }
    }
  }

  // ---------------------------------------------------------------------
  // Round trip: the decoder reads back what the encoder writes
  // ---------------------------------------------------------------------

  /**
   * The bytes of `e` appear in `data` starting at cursor i, stated byte by
   * byte so that the solver unfolds it only as far as a proof asks.
   */
  predicate At(data: seq<Byte>, i: nat, e: seq<Byte>)
    decreases |e|
  {
    if e == [] then i <= |data| else i < |data| && data[i] == e[0] && At(data, i + 1, e[1..])
  }

  lemma {:induction false} AtSlice(data: seq<Byte>, i: nat, e: seq<Byte>)
    ensures At(data, i, e) <==> i + |e| <= |data| && data[i..i + |e|] == e
    decreases |e|
  {
    if e != [] {
      AtSlice(data, i + 1, e[1..]);
      if i + |e| <= |data| {
        assert data[i..i + |e|] == [data[i]] + data[i + 1..i + |e|];
        assert e == [e[0]] + e[1..];
      }
    }
  }

  /** Both halves of a concatenation are found where they were put. */
  lemma AtConcat(a: seq<Byte>, b: seq<Byte>)
    ensures At(a + b, 0, a) && At(a + b, |a|, b)
  {
    AtSlice(a + b, 0, a);
    AtSlice(a + b, |a|, b);
    assert (a + b)[0..|a|] == a;
    assert (a + b)[|a|..|a| + |b|] == b;
  }

  lemma AtSplit(data: seq<Byte>, i: nat, a: seq<Byte>, b: seq<Byte>)
    requires At(data, i, a + b)
    ensures At(data, i, a) && At(data, i + |a|, b)
  {
    AtSlice(data, i, a + b);
    AtSlice(data, i, a);
    AtSlice(data, i + |a|, b);
    assert data[i..i + |a|] == (a + b)[..|a|];
    assert data[i + |a|..i + |a| + |b|] == (a + b)[|a|..];
  }

  /** The entries of m whose keys are listed in ks. */
  function Restrict(m: map<seq<Byte>, Value>, ks: seq<seq<Byte>>): (r: map<seq<Byte>, Value>)
    requires KeysIn(ks, m)
  {
    if ks == [] then map[] else map[ks[0] := m[ks[0]]] + Restrict(m, ks[1..])
  }

  /** Restricting m to a list of its keys keeps exactly those entries. */
  lemma {:induction false} RestrictEntries(m: map<seq<Byte>, Value>, ks: seq<seq<Byte>>)
    requires KeysIn(ks, m)
    ensures forall k :: k in Restrict(m, ks) <==> k in ks
    ensures forall k | k in Restrict(m, ks) :: Restrict(m, ks)[k] == m[k]
  {
    if ks != [] {
      RestrictEntries(m, ks[1..]);
      assert forall k :: k in ks <==> k == ks[0] || k in ks[1..];
    }
  }

  /** A digit string followed by `c` is read up to `c` when c is not a digit. */
  lemma DigitsThenDelimiter(data: seq<Byte>, i: nat, digits: seq<Byte>, c: Byte)
    requires At(data, i, digits + [c]) && !IsDigit(c) && c != MINUS
    requires forall k | 0 <= k < |digits| :: IsDigit(digits[k]) || digits[k] == MINUS
    ensures IndexOf(data, c, i) == Some(i + |digits|)
  {
    AtSlice(data, i, digits + [c]);
    forall k | i <= k < i + |digits| ensures data[k] != c {
      assert data[k] == (digits + [c])[k - i];
    }
    assert data[i + |digits|] == (digits + [c])[|digits|];
    IndexOfAt(data, c, i, i + |digits|);
  }

  /** `parse_str` reads back `bencode` of a byte string. */
  lemma ParseStrEncoded(data: seq<Byte>, i: nat, s: seq<Byte>, stop: nat)
    requires At(data, i, EncodeBytes(s)) && stop == i + |EncodeBytes(s)|
    ensures ParseStr(data, i) == Ok((s, stop))
  {
    var digits := NatDigits(|s|);
    AtSplit(data, i, digits + [COLON], s);
    DigitsThenDelimiter(data, i, digits, COLON);
    var c := i + |digits|;
    assert data[i..c] == digits by {
      AtSplit(data, i, digits, [COLON]);
      AtSlice(data, i, digits);
    }
    AtSlice(data, c + 1, s);
    ParseShowInt(|s|);
  }

  /** `parse_int` reads back `bencode` of an integer. */
  lemma IntEncoded(data: seq<Byte>, i: nat, n: int, stop: nat)
    requires At(data, i, Encode(Int(n))) && stop == i + |Encode(Int(n))|
    ensures ValueAt(data, i) == Ok((Int(n), stop))
  {
    ShowIntCharacters(n);
    assert Encode(Int(n)) == [INT_TAG] + (ShowInt(n) + [END]);
    AtSplit(data, i, [INT_TAG], ShowInt(n) + [END]);
    assert data[i] == INT_TAG;
    DigitsThenDelimiter(data, i + 1, ShowInt(n), END);
    AtSplit(data, i + 1, ShowInt(n), [END]);
    AtSlice(data, i + 1, ShowInt(n));
    ParseShowInt(n);
  }

  /** Where a list's encoding starts: `l`, then the item encodings, then `e`. */
  lemma ListFraming(data: seq<Byte>, i: nat, items: seq<Value>)
    requires At(data, i, Encode(List(items)))
    ensures data[i] == LIST_TAG && At(data, i + 1, EncodeItems(items))
    ensures i + 1 + |EncodeItems(items)| < |data| && data[i + 1 + |EncodeItems(items)|] == END
  {
    var body := EncodeItems(items);
    AtSplit(data, i, [LIST_TAG] + body, [END]);
    AtSplit(data, i, [LIST_TAG], body);
    assert data[i] == Encode(List(items))[0];
    assert data[i + 1 + |body|] == Encode(List(items))[1 + |body|];
  }

  /**
   * Where a dictionary's encoding starts: `d`, the entries in key order,
   * then `e`; the key order lists every key of m once.
   */
  lemma DictFraming(data: seq<Byte>, i: nat, m: map<seq<Byte>, Value>) returns (ks: seq<seq<Byte>>, stop: nat)
    requires At(data, i, Encode(Dict(m)))
    ensures KeysIn(ks, m) && Restrict(m, ks) == m
    ensures data[i] == DICT_TAG && At(data, i + 1, EncodeEntries(m, ks))
    ensures stop == i + 1 + |EncodeEntries(m, ks)| && stop < |data| && data[stop] == END
    ensures stop + 1 == i + |Encode(Dict(m))|
  {
    ks := SortedKeys(m.Keys);
    var body := EncodeEntries(m, ks);
    stop := i + 1 + |body|;
    AtSplit(data, i, [DICT_TAG] + body, [END]);
    AtSplit(data, i, [DICT_TAG], body);
    assert data[i] == Encode(Dict(m))[0];
    assert data[stop] == Encode(Dict(m))[1 + |body|];
    RestrictSorted(m);
  }

  /** Where an entry's encoding starts: the key, read back, then its value and the other entries. */
  lemma EntryFraming(data: seq<Byte>, i: nat, m: map<seq<Byte>, Value>, ks: seq<seq<Byte>>)
    returns (afterKey: nat, next: nat)
    requires ks != [] && KeysIn(ks, m)
    requires At(data, i, EncodeEntries(m, ks))
    ensures afterKey == i + |EncodeBytes(ks[0])| && ParseStr(data, i) == Ok((ks[0], afterKey))
    ensures next == afterKey + |Encode(m[ks[0]])| && At(data, afterKey, Encode(m[ks[0]]))
    ensures At(data, next, EncodeEntries(m, ks[1..]))
    ensures next + |EncodeEntries(m, ks[1..])| == i + |EncodeEntries(m, ks)|
    ensures i < |data| && data[i] != END
  {
    var key := EncodeBytes(ks[0]);
    var val := Encode(m[ks[0]]);
    var others := EncodeEntries(m, ks[1..]);
    afterKey := i + |key|;
    next := afterKey + |val|;
    assert EncodeEntries(m, ks) == (key + val) + others;
    assert At(data, i, key) && At(data, afterKey, val) && At(data, next, others) by {
      AtSplit(data, i, key + val, others);
      AtSplit(data, i, key, val);
    }
    assert data[i] == key[0] by {
      AtSlice(data, i, key);
    }
    ParseStrEncoded(data, i, ks[0], afterKey);
  }

  // Single unfoldings of the decoder, stated apart from any encoding.

  lemma ListValue(data: seq<Byte>, i: nat, items: seq<Value>, end: nat, stop: nat)
    requires i < |data| && data[i] == LIST_TAG && ItemsFrom(data, i + 1) == Ok((items, end)) && stop == end + 1
    ensures ValueAt(data, i) == Ok((List(items), stop))
  {
  }

  lemma DictValue(data: seq<Byte>, i: nat, m: map<seq<Byte>, Value>, end: nat, stop: nat)
    requires i < |data| && data[i] == DICT_TAG && EntriesFrom(data, i + 1) == Ok((m, end)) && stop == end + 1
    ensures ValueAt(data, i) == Ok((Dict(m), stop))
  {
  }

  lemma RestrictSorted(m: map<seq<Byte>, Value>)
    ensures Restrict(m, SortedKeys(m.Keys)) == m
  {
    SortedKeysMembers(m.Keys);
    RestrictEntries(m, SortedKeys(m.Keys));
  }

  lemma RestrictCons(m: map<seq<Byte>, Value>, ks: seq<seq<Byte>>)
    requires ks != [] && KeysIn(ks, m)
    ensures Restrict(m, ks) == map[ks[0] := m[ks[0]]] + Restrict(m, ks[1..])
  {
  }

  /** `parse_any` reads back `bencode(v)` wherever it appears. */
  lemma {:induction false} ValueAtEncoded(data: seq<Byte>, i: nat, v: Value, stop: nat)
    requires At(data, i, Encode(v)) && stop == i + |Encode(v)|
    ensures ValueAt(data, i) == Ok((v, stop))
    decreases v, 2
  {
    match v
    case Int(n) => IntEncoded(data, i, n, stop);
    case Bytes(s) => BytesEncoded(data, i, s, stop);
    case List(items) => ListEncoded(data, i, items, stop);
    case Dict(m) => DictEncoded(data, i, m, stop);
  }

  lemma BytesEncoded(data: seq<Byte>, i: nat, s: seq<Byte>, stop: nat)
    requires At(data, i, Encode(Bytes(s))) && stop == i + |Encode(Bytes(s))|
    ensures ValueAt(data, i) == Ok((Bytes(s), stop))
  {
    assert data[i] == Encode(Bytes(s))[0];
    ParseStrEncoded(data, i, s, stop);
  }

  lemma {:induction false} ListEncoded(data: seq<Byte>, i: nat, items: seq<Value>, stop: nat)
    requires At(data, i, Encode(List(items))) && stop == i + |Encode(List(items))|
    ensures ValueAt(data, i) == Ok((List(items), stop))
    decreases List(items), 1
  {
    var body := EncodeItems(items);
    var end: nat := i + 1 + |body|;
    assert |Encode(List(items))| == |body| + 2;
    assert data[i] == LIST_TAG && ItemsFrom(data, i + 1) == Ok((items, end)) by {
      ListFraming(data, i, items);
      ItemsFromEncoded(data, i + 1, items, end);
    }
    ListValue(data, i, items, end, stop);
  }

  lemma {:induction false} DictEncoded(data: seq<Byte>, i: nat, m: map<seq<Byte>, Value>, stop: nat)
    requires At(data, i, Encode(Dict(m))) && stop == i + |Encode(Dict(m))|
    ensures ValueAt(data, i) == Ok((Dict(m), stop))
    decreases Dict(m), 1
  {
    var ks, end := DictFraming(data, i, m);
    EntriesFromEncoded(data, i + 1, m, ks, end);
    DictValue(data, i, m, end, stop);
  }

  /** The first item of a list body is read back, and the cursor lands on the rest. */
  lemma {:induction false} ItemStep(data: seq<Byte>, i: nat, items: seq<Value>) returns (next: nat)
    requires items != [] && At(data, i, EncodeItems(items))
    ensures i < |data| && data[i] != END && ValueAt(data, i) == Ok((items[0], next))
    ensures At(data, next, EncodeItems(items[1..]))
    ensures next + |EncodeItems(items[1..])| == i + |EncodeItems(items)|
    decreases items, 0
  {
    var first := Encode(items[0]);
    var others := EncodeItems(items[1..]);
    next := i + |first|;
    assert EncodeItems(items) == first + others;
    AtSplit(data, i, first, others);
    EncodeTag(items[0]);
    assert data[i] == first[0];
    ValueAtEncoded(data, i, items[0], next);
  }

  /**
   * The list loop reads back the item encodings, whether they are followed
   * by `e` or by the end of the input.
   */
  lemma {:induction false} ItemsFromEncoded(data: seq<Byte>, i: nat, items: seq<Value>, stop: nat)
    requires At(data, i, EncodeItems(items)) && stop == i + |EncodeItems(items)|
    requires stop >= |data| || data[stop] == END
    ensures ItemsFrom(data, i) == Ok((items, stop))
    decreases items
  {
    if items == [] {
      assert ItemsFrom(data, i) == Ok(([], i));
    } else {
      var next := ItemStep(data, i, items);
      ItemsFromEncoded(data, next, items[1..], stop);
      assert [items[0]] + items[1..] == items;
    }
  }

  /** The first entry of a dictionary body is read back, and the cursor lands on the rest. */
  lemma {:induction false} EntryStep(data: seq<Byte>, i: nat, m: map<seq<Byte>, Value>, ks: seq<seq<Byte>>)
    returns (afterKey: nat, next: nat)
    requires ks != [] && KeysIn(ks, m)
    requires At(data, i, EncodeEntries(m, ks))
    ensures i < |data| && data[i] != END
    ensures ParseStr(data, i) == Ok((ks[0], afterKey)) && ValueAt(data, afterKey) == Ok((m[ks[0]], next))
    ensures At(data, next, EncodeEntries(m, ks[1..]))
    ensures next + |EncodeEntries(m, ks[1..])| == i + |EncodeEntries(m, ks)|
    decreases Dict(m), 0, |ks|, 0
  {
    afterKey, next := EntryFraming(data, i, m, ks);
    ValueAtEncoded(data, afterKey, m[ks[0]], next);
  }

  /**
   * The dictionary loop reads back the entries of m listed in ks, whether
   * they are followed by `e` or by the end of the input.
   */
  lemma {:induction false} EntriesFromEncoded(data: seq<Byte>, i: nat, m: map<seq<Byte>, Value>, ks: seq<seq<Byte>>,
                                              stop: nat)
    requires KeysIn(ks, m)
    requires At(data, i, EncodeEntries(m, ks)) && stop == i + |EncodeEntries(m, ks)|
    requires stop >= |data| || data[stop] == END
    ensures EntriesFrom(data, i) == Ok((Restrict(m, ks), stop))
    decreases Dict(m), 0, |ks|
  {
    if ks == [] {
      assert EntriesFrom(data, i) == Ok((map[], i));
    } else {
      var afterKey, next := EntryStep(data, i, m, ks);
      EntriesFromEncoded(data, next, m, ks[1..], stop);
      RestrictCons(m, ks);
    }
  }

  /** `bdecode(bencode(v)) == v` for every value. */
  lemma DecodeEncode(v: Value)
    ensures Decode(Encode(v)) == Ok(v)
  {
    EncodeTag(v);
    AtConcat(Encode(v), []);
    assert Encode(v) + [] == Encode(v);
    ValueAtEncoded(Encode(v), 0, v, |Encode(v)|);
  }

  /** Distinct values have distinct encodings. */
  lemma EncodeInjective(a: Value, b: Value)
    requires Encode(a) == Encode(b)
    ensures a == b
  {
    DecodeEncode(a);
    DecodeEncode(b);
  }

  // ---------------------------------------------------------------------
  // The decoder's leniencies and its one strictness
  // ---------------------------------------------------------------------

  /** Bytes after a complete root value are refused, naming where they start. */
  lemma TrailingDataRejected(v: Value, extra: seq<Byte>)
    requires extra != []
    ensures Decode(Encode(v) + extra) == Err(ExtraData(|Encode(v)|))
  {
    var data := Encode(v) + extra;
    AtConcat(Encode(v), extra);
    ValueAtEncoded(data, 0, v, |Encode(v)|);
  }

  /**
   * A byte string whose declared length n runs past the end of the input is
   * accepted with the bytes that are there.
   */
  lemma TruncatedStringAccepted(n: nat, s: seq<Byte>)
    requires |s| < n
    ensures Decode(NatDigits(n) + [COLON] + s) == Ok(Bytes(s))
  {
    var data := NatDigits(n) + [COLON] + s;
    AtConcat(NatDigits(n) + [COLON], s);
    AtSlice(data, |NatDigits(n)| + 1, s);
    TruncatedStringRead(data, n, s);
  }

  lemma TruncatedStringRead(data: seq<Byte>, n: nat, s: seq<Byte>)
    requires |s| < n && |data| == |NatDigits(n)| + 1 + |s|
    requires At(data, 0, NatDigits(n) + [COLON]) && data[|NatDigits(n)| + 1..] == s
    ensures Decode(data) == Ok(Bytes(s))
  {
    var digits := NatDigits(n);
    var c := |digits|;
    DigitsThenDelimiter(data, 0, digits, COLON);
    AtSplit(data, 0, digits, [COLON]);
    AtSlice(data, 0, digits);
    assert data[0] == digits[0];
    assert data[0..c] == digits;
    ParseShowInt(n);
    assert ParseDecimal(data[0..c]) == Some(n);
    assert data[c + 1..|data|] == s;
    assert ParseStr(data, 0) == Ok((s, c + 1 + n));
  }

  /** A list missing its closing `e` is accepted. */
  lemma UnterminatedListAccepted(items: seq<Value>)
    ensures Decode([LIST_TAG] + EncodeItems(items)) == Ok(List(items))
  {
    var data := [LIST_TAG] + EncodeItems(items);
    AtConcat([LIST_TAG], EncodeItems(items));
    UnterminatedItemsRead(data, items);
  }

  lemma UnterminatedItemsRead(data: seq<Byte>, items: seq<Value>)
    requires |data| == 1 + |EncodeItems(items)| && data[0] == LIST_TAG
    requires At(data, 1, EncodeItems(items))
    ensures Decode(data) == Ok(List(items))
  {
    ItemsFromEncoded(data, 1, items, |data|);
    ListValue(data, 0, items, |data|, |data| + 1);
  }

  /** A dictionary missing its closing `e` is accepted. */
  lemma UnterminatedDictAccepted(m: map<seq<Byte>, Value>)
    ensures Decode([DICT_TAG] + EncodeEntries(m, SortedKeys(m.Keys))) == Ok(Dict(m))
  {
    var ks := SortedKeys(m.Keys);
    var data := [DICT_TAG] + EncodeEntries(m, ks);
    AtConcat([DICT_TAG], EncodeEntries(m, ks));
    RestrictSorted(m);
    UnterminatedEntriesRead(data, m, ks);
  }

  lemma UnterminatedEntriesRead(data: seq<Byte>, m: map<seq<Byte>, Value>, ks: seq<seq<Byte>>)
    requires KeysIn(ks, m)
    requires |data| == 1 + |EncodeEntries(m, ks)| && data[0] == DICT_TAG
    requires At(data, 1, EncodeEntries(m, ks))
    ensures Decode(data) == Ok(Dict(Restrict(m, ks)))
  {
    EntriesFromEncoded(data, 1, m, ks, |data|);
    DictValue(data, 0, Restrict(m, ks), |data|, |data| + 1);
  }
}
