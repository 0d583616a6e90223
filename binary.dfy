/**
 * Byte strings and the few byte-level conversions the client relies on:
 * big-endian unsigned integers (Python's `struct.pack(">I", ...)`,
 * `struct.unpack(">I", ...)` and `int.from_bytes(..., 'big')`), decimal
 * text (`str(n).encode()` and `int(b"...")`), and `bytes.index`.
 */
module Binary {

  type Byte = x: int | 0 <= x < 256

  datatype Option<T> = None | Some(value: T)

  const U32_LIMIT: nat := 0x1_0000_0000

  // ASCII codes used by the bencoding grammar and the decimal helpers
  const ZERO: Byte := 48
  const MINUS: Byte := 45

  predicate IsDigit(b: Byte) { ZERO <= b <= ZERO + 9 }

  predicate AllDigits(s: seq<Byte>) { forall k | 0 <= k < |s| :: IsDigit(s[k]) }

  // ---------------------------------------------------------------------
  // Big-endian unsigned integers
  // ---------------------------------------------------------------------

  /** Unsigned value of a big-endian byte string of any length. */
  function FromBigEndian(s: seq<Byte>): (n: nat)
    ensures n < Pow256(|s|)
  {
    if s == [] then 0 else FromBigEndian(s[..|s| - 1]) * 256 + s[|s| - 1]
  }

  function Pow256(k: nat): (p: nat)
    ensures p >= 1
  {
    if k == 0 then 1 else 256 * Pow256(k - 1)
  }

  function Pow2(k: nat): (p: nat)
    ensures p >= 1
  {
    if k == 0 then 1 else 2 * Pow2(k - 1)
  }

  /** n as k bytes, most significant first (`n.to_bytes(k, 'big')`). */
  function BigEndian(n: nat, k: nat): (r: seq<Byte>)
    requires n < Pow256(k)
    ensures |r| == k
  {
    if k == 0 then [] else BigEndian(n / 256, k - 1) + [n % 256]
  }

  /** Reading back the k bytes written for n gives n. */
  lemma {:induction false} FromBigEndianOf(n: nat, k: nat)
    requires n < Pow256(k)
    ensures FromBigEndian(BigEndian(n, k)) == n
  {
    if k > 0 {
      var r := BigEndian(n, k);
      assert r[..k - 1] == BigEndian(n / 256, k - 1);
      FromBigEndianOf(n / 256, k - 1);
    }
  }

  /** Writing back the value of a byte string, at its own width, gives it again. */
  lemma {:induction false} BigEndianOf(s: seq<Byte>)
    ensures BigEndian(FromBigEndian(s), |s|) == s
  {
    if s != [] {
      var init := s[..|s| - 1];
      BigEndianOf(init);
      assert s == init + [s[|s| - 1]];
    }
  }

  /** `struct.pack(">I", n)`: four bytes, most significant first. */
  function BigEndian32(n: nat): (r: seq<Byte>)
    requires n < U32_LIMIT
    ensures |r| == 4
    ensures FromBigEndian(r) == n
  {
    assert Pow256(4) == U32_LIMIT;
    FromBigEndianOf(n, 4);
    BigEndian(n, 4)
  }

  /** `struct.unpack(">I", s)` is the inverse of `struct.pack(">I", n)`. */
  lemma BigEndian32Inverse(s: seq<Byte>)
    requires |s| == 4
    ensures FromBigEndian(s) < U32_LIMIT
    ensures BigEndian32(FromBigEndian(s)) == s
  {
    assert Pow256(4) == U32_LIMIT;
    BigEndianOf(s);
  }

  // ---------------------------------------------------------------------
  // Decimal text
  // ---------------------------------------------------------------------

  /** `str(n).encode()` for a non-negative n: no sign, no leading zeros. */
  function NatDigits(n: nat): (r: seq<Byte>)
    ensures |r| >= 1 && AllDigits(r)
    ensures |r| > 1 ==> r[0] != ZERO
    decreases n
  {
    if n < 10 then [ZERO + n] else NatDigits(n / 10) + [ZERO + n % 10]
  }

  /** The number written by a non-empty run of ASCII digits. */
  function DigitsValue(s: seq<Byte>): nat
    requires AllDigits(s)
  {
    if s == [] then 0 else DigitsValue(s[..|s| - 1]) * 10 + (s[|s| - 1] - ZERO)
  }

  lemma {:induction false} DigitsValueOfNatDigits(n: nat)
    ensures DigitsValue(NatDigits(n)) == n
    decreases n
  {
    if n >= 10 {
      var r := NatDigits(n);
      assert r[..|r| - 1] == NatDigits(n / 10);
      DigitsValueOfNatDigits(n / 10);
    }
  }

  /** `str(n).encode()` for any integer. */
  function ShowInt(n: int): seq<Byte>
  {
    if n < 0 then [MINUS] + NatDigits(-n) else NatDigits(n)
  }

  /**
   * Python's `int(b)` restricted to the grammar this model accepts: an
   * optional `-` followed by one or more ASCII digits.
   */
  function ParseDecimal(s: seq<Byte>): (r: Option<int>)
    ensures r.Some? ==> |s| >= 1 && (r.value < 0 ==> s[0] == MINUS)
    ensures r.Some? && s[0] != MINUS ==> AllDigits(s) && r.value >= 0
  {
    if |s| >= 2 && s[0] == MINUS && AllDigits(s[1..]) then Some(0 - DigitsValue(s[1..]) as int)
    else if |s| >= 1 && AllDigits(s) then Some(DigitsValue(s))
    else None
  }

  /** Reading back what `str(n)` writes gives n again. */
  lemma ParseShowInt(n: int)
    ensures ParseDecimal(ShowInt(n)) == Some(n)
  {
    if n < 0 {
      var s := ShowInt(n);
      assert s[1..] == NatDigits(-n);
      assert |s| >= 2 && s[0] == MINUS && AllDigits(s[1..]);
      DigitsValueOfNatDigits(-n);
    } else {
      assert IsDigit(NatDigits(n)[0]);
      DigitsValueOfNatDigits(n);
    }
  }

  /** `str(n)` is made of digits and possibly a leading minus sign only. */
  lemma ShowIntCharacters(n: int)
    ensures |ShowInt(n)| >= 1
    ensures forall k | 0 <= k < |ShowInt(n)| :: IsDigit(ShowInt(n)[k]) || ShowInt(n)[k] == MINUS
  {
  }

  // ---------------------------------------------------------------------
  // Searching
  // ---------------------------------------------------------------------

  /** `data.index(bytes([b]), from)`: the first position at or after `from` holding b. */
  function IndexOf(data: seq<Byte>, b: Byte, from: nat): (r: Option<nat>)
    ensures r.Some? ==> from <= r.value < |data| && data[r.value] == b
    ensures r.Some? ==> forall k | from <= k < r.value :: data[k] != b
    ensures r.None? ==> forall k | from <= k < |data| :: data[k] != b
    decreases |data| - from
  {
    if from >= |data| then None
    else if data[from] == b then Some(from)
    else IndexOf(data, b, from + 1)
  }

  /** Locating a delimiter whose position is known: nothing earlier matches. */
  lemma IndexOfAt(data: seq<Byte>, b: Byte, from: nat, at: nat)
    requires from <= at < |data| && data[at] == b
    requires forall k | from <= k < at :: data[k] != b
    ensures IndexOf(data, b, from) == Some(at)
  {
  }

  /**
   * Regrouping a concatenation. Stated on its own so that callers with many
   * facts in scope need not prove it by extensionality there.
   */
  lemma AppendAssoc(a: seq<Byte>, b: seq<Byte>, c: seq<Byte>)
    ensures (a + b) + c == a + (b + c)
  {
  }

  /** The first part of a concatenation, sliced back out. */
  lemma SliceOfFirst(a: seq<Byte>, b: seq<Byte>)
    ensures (a + b)[..|a|] == a && (a + b)[0..|a|] == a
  {
  }

  /** A slice that lies in the second part of a concatenation. */
  lemma SliceOfSecond(a: seq<Byte>, b: seq<Byte>, i: nat, j: nat)
    requires |a| <= i <= j <= |a| + |b|
    ensures (a + b)[i..j] == b[i - |a|..j - |a|]
  {
  }

  /** Concatenation of a sequence of byte strings (`b''.join(parts)`). */
  function Join(parts: seq<seq<Byte>>): (r: seq<Byte>)
  {
    if parts == [] then [] else parts[0] + Join(parts[1..])
  }

  lemma JoinAppend(parts: seq<seq<Byte>>, last: seq<Byte>)
    ensures Join(parts + [last]) == Join(parts) + last
  {
    if parts != [] {
      assert (parts + [last])[1..] == parts[1..] + [last];
    }
  }
}
