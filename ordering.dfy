/**
 * The two orders the client sorts by: Python's `bytes` comparison (used by
 * `sorted(data.keys())` when bencoding a dictionary) and integer order
 * (used by `sorted(piece_blocks.keys())` when reassembling a piece).
 * Each comes with the function that lists a finite set in ascending order.
 */
module Ordering {
  import opened Binary

  /** Python's `a < b` on byte strings: lexicographic, a proper prefix first. */
  predicate LexLess(a: seq<Byte>, b: seq<Byte>)
  {
    if b == [] then false
    else if a == [] then true
    else if a[0] != b[0] then a[0] < b[0]
    else LexLess(a[1..], b[1..])
  }

  lemma {:induction false} LexLessIrreflexive(a: seq<Byte>)
    ensures !LexLess(a, a)
  {
    if a != [] {
      LexLessIrreflexive(a[1..]);
    }
  }

  lemma {:induction false} LexLessAsymmetric(a: seq<Byte>, b: seq<Byte>)
    ensures !(LexLess(a, b) && LexLess(b, a))
  {
    if a != [] && b != [] && a[0] == b[0] {
      LexLessAsymmetric(a[1..], b[1..]);
    }
  }

  lemma {:induction false} LexLessTransitive(a: seq<Byte>, b: seq<Byte>, c: seq<Byte>)
    requires LexLess(a, b) && LexLess(b, c)
    ensures LexLess(a, c)
  {
    if a != [] && a[0] == b[0] && b[0] == c[0] {
      LexLessTransitive(a[1..], b[1..], c[1..]);
    }
  }

  lemma {:induction false} LexLessTotal(a: seq<Byte>, b: seq<Byte>)
    requires a != b
    ensures LexLess(a, b) || LexLess(b, a)
  {
    if a != [] && b != [] && a[0] == b[0] {
      assert a == [a[0]] + a[1..] && b == [b[0]] + b[1..];
      LexLessTotal(a[1..], b[1..]);
    }
  }

  predicate IsLeastKey(k: seq<Byte>, keys: set<seq<Byte>>)
  {
    k in keys && forall o {:trigger LexLess(k, o)} | o in keys && o != k :: LexLess(k, o)
  }

  lemma {:induction false} LeastKeyExists(keys: set<seq<Byte>>)
    requires keys != {}
    ensures exists k :: IsLeastKey(k, keys)
    decreases |keys|
  {
    var x :| x in keys;
    if keys != {x} {
      LeastKeyExists(keys - {x});
      var k :| IsLeastKey(k, keys - {x});
      if LexLess(x, k) {
        forall o | o in keys && o != x ensures LexLess(x, o) {
          if o != k { LexLessTransitive(x, k, o); }
        }
        assert IsLeastKey(x, keys);
      } else {
        LexLessTotal(x, k);
        assert IsLeastKey(k, keys);
      }
    } else {
      assert IsLeastKey(x, keys);
    }
  }

  lemma LeastKeyUnique(keys: set<seq<Byte>>)
    ensures forall k, k' | IsLeastKey(k, keys) && IsLeastKey(k', keys) :: k == k'
  {
    forall k, k' | IsLeastKey(k, keys) && IsLeastKey(k', keys) ensures k == k' {
      LexLessAsymmetric(k, k');
    }
  }

  predicate StrictlyAscending(ks: seq<seq<Byte>>)
  {
    forall p, q | 0 <= p < q < |ks| :: LexLess(ks[p], ks[q])
  }

  /** `sorted(keys)`: the keys of a dictionary in ascending byte order. */
  function SortedKeys(keys: set<seq<Byte>>): (r: seq<seq<Byte>>)
    ensures |r| == |keys|
    ensures forall j | 0 <= j < |r| :: r[j] in keys
    decreases |keys|
  {
    if keys == {} then []
    else
      LeastKeyExists(keys);
      LeastKeyUnique(keys);
      var k :| IsLeastKey(k, keys);
      [k] + SortedKeys(keys - {k})
  }

  /** `sorted(keys)` lists every key, and nothing else. */
  lemma {:induction false} SortedKeysMembers(keys: set<seq<Byte>>)
    ensures forall k :: k in SortedKeys(keys) <==> k in keys
    decreases |keys|
  {
    if keys != {} {
      LeastKeyExists(keys);
      LeastKeyUnique(keys);
      var k :| IsLeastKey(k, keys);
      assert SortedKeys(keys) == [k] + SortedKeys(keys - {k});
      SortedKeysMembers(keys - {k});
    }
  }

  /** `sorted(keys)` lists the keys in strictly ascending byte order. */
  lemma {:induction false} SortedKeysAscending(keys: set<seq<Byte>>)
    ensures StrictlyAscending(SortedKeys(keys))
    decreases |keys|
  {
    if keys != {} {
      LeastKeyExists(keys);
      LeastKeyUnique(keys);
      var k :| IsLeastKey(k, keys);
      var rest := SortedKeys(keys - {k});
      assert SortedKeys(keys) == [k] + rest;
      SortedKeysAscending(keys - {k});
      forall p, q | 0 <= p < q < |[k] + rest| ensures LexLess(([k] + rest)[p], ([k] + rest)[q]) {
        if p == 0 {
          assert rest[q - 1] in keys - {k};
        }
      }
    }
  }

  predicate IsLeastInt(k: int, s: set<int>)
  {
    k in s && forall o | o in s :: k <= o
  }

  lemma {:induction false} LeastIntExists(s: set<int>)
    requires s != {}
    ensures exists k :: IsLeastInt(k, s)
    decreases |s|
  {
    if forall y: int :: y !in s { assert false; }
    var x: int :| x in s;
    if s != {x} {
      LeastIntExists(s - {x});
      var k: int :| IsLeastInt(k, s - {x});
      var least := if x < k then x else k;
      forall o | o in s ensures least <= o {
        if o != x { assert o in s - {x}; }
      }
      assert IsLeastInt(least, s);
    } else {
      assert IsLeastInt(x, s);
    }
  }

  /** A set has at most one least element. */
  lemma LeastIntUnique(j: int, k: int, s: set<int>)
    requires IsLeastInt(j, s) && IsLeastInt(k, s)
    ensures j == k
  {
    assert j <= k && k <= j;
  }

  /** `sorted(offsets)`: a finite set of integers in ascending order. */
  function SortedInts(s: set<int>): (r: seq<int>)
    ensures |r| == |s|
    ensures forall k :: k in r <==> k in s
    ensures forall p, q | 0 <= p < q < |r| :: r[p] < r[q]
    decreases |s|
  {
    if s == {} then []
    else
      LeastIntExists(s);
      var k: int :| IsLeastInt(k, s);
      [k] + SortedInts(s - {k})
  }

  /** The sorted listing starts with the least element, followed by the listing of the others. */
  lemma SortedIntsUnfold(s: set<int>, least: int)
    requires IsLeastInt(least, s)
    ensures SortedInts(s) == [least] + SortedInts(s - {least})
  {
    LeastIntExists(s);
    var k: int :| IsLeastInt(k, s);
    LeastIntUnique(k, least, s);
  }
}
