/**
  Go strings are byte sequences. This module gives the byte type, a way to
  write ASCII literals as bytes, ASCII lower-casing (strings.ToLower on ASCII
  input), Go's byte-wise string order (the order sort.Strings uses) and the
  sorted enumeration of a finite set of keys.
 */
module Bytes {

  newtype byte = x: int | 0 <= x < 256

  type Bytes = seq<byte>

  predicate IsAscii(s: string) {
    forall i | 0 <= i < |s| :: s[i] as int < 128
  }

  /** The bytes of an ASCII string literal. */
  function Ascii(s: string): (r: Bytes)
    requires IsAscii(s)
    ensures |r| == |s|
    ensures forall i | 0 <= i < |s| :: r[i] as int == s[i] as int
  {
    seq(|s|, i requires 0 <= i < |s| => s[i] as int as byte)
  }

  const SPACE: byte := 0x20
  const PERCENT: byte := 0x25
  const AMPERSAND: byte := 0x26
  const PLUS: byte := 0x2B
  const SLASH: byte := 0x2F
  const SEMICOLON: byte := 0x3B
  const EQUALS: byte := 0x3D
  const AT: byte := 0x40

  /** strings.HasPrefix(s, "@"). */
  predicate HasSigil(s: Bytes) {
    |s| > 0 && s[0] == AT
  }

  function LowerByte(b: byte): byte {
    if 0x41 <= b <= 0x5A then b + 0x20 else b
  }

  /** strings.ToLower restricted to its ASCII behaviour: A-Z become a-z. */
  function ToLower(s: Bytes): (r: Bytes)
    ensures |r| == |s|
    ensures forall i | 0 <= i < |s| :: r[i] == LowerByte(s[i])
  {
    seq(|s|, i requires 0 <= i < |s| => LowerByte(s[i]))
  }

  /** Position of the first `b` in `s`, or |s| when there is none. */
  function IndexOf(s: Bytes, b: byte): (i: nat)
    ensures i <= |s|
    ensures i < |s| ==> s[i] == b
    ensures forall j | 0 <= j < i :: s[j] != b
  {
    if s == [] then 0
    else if s[0] == b then 0
    else 1 + IndexOf(s[1..], b)
  }

  /** Go's string comparison `a < b`: byte-wise lexicographic order. */
  predicate Less(a: Bytes, b: Bytes)
    decreases |a|
  {
    if a == [] then b != []
    else if b == [] then false
    else if a[0] != b[0] then a[0] < b[0]
    else Less(a[1..], b[1..])
  }

  lemma {:induction false} LessIrreflexive(a: Bytes)
    ensures !Less(a, a)
  {
    if a != [] {
      LessIrreflexive(a[1..]);
    }
  }

  lemma {:induction false} LessAsymmetric(a: Bytes, b: Bytes)
    requires Less(a, b)
    ensures !Less(b, a)
  {
    if a != [] && b != [] && a[0] == b[0] {
      LessAsymmetric(a[1..], b[1..]);
    }
  }

  lemma {:induction false} LessTransitive(a: Bytes, b: Bytes, c: Bytes)
    requires Less(a, b) && Less(b, c)
    ensures Less(a, c)
  {
    if a != [] && a[0] == b[0] && b[0] == c[0] {
      LessTransitive(a[1..], b[1..], c[1..]);
    }
  }

  lemma {:induction false} LessTotal(a: Bytes, b: Bytes)
    ensures a == b || Less(a, b) || Less(b, a)
  {
    if a != [] && b != [] && a[0] == b[0] {
      LessTotal(a[1..], b[1..]);
      if a[1..] == b[1..] {
        assert a == [a[0]] + a[1..] && b == [b[0]] + b[1..];
      }
    }
  }

  predicate Distinct(s: seq<Bytes>) {
    forall i, j | 0 <= i < j < |s| :: s[i] != s[j]
  }

  /** `order` visits every key of `keys` exactly once: how Go ranges over a map. */
  predicate Enumerates(order: seq<Bytes>, keys: set<Bytes>) {
    && Distinct(order)
    && (forall k | k in keys :: k in order)
    && (forall i | 0 <= i < |order| :: order[i] in keys)
  }

  predicate StrictlySorted(s: seq<Bytes>) {
    forall i, j | 0 <= i < j < |s| :: Less(s[i], s[j])
  }

  predicate IsLeast(k: Bytes, s: set<Bytes>) {
    k in s && forall j | j in s && j != k :: Less(k, j)
  }

  lemma {:induction false} LeastExists(s: set<Bytes>)
    requires s != {}
    ensures exists k :: IsLeast(k, s)
    decreases s
  {
    var x :| x in s;
    if s == {x} {
      assert IsLeast(x, s);
    } else {
      LeastExists(s - {x});
      var m :| IsLeast(m, s - {x});
      LessTotal(x, m);
      if Less(x, m) {
        forall j | j in s && j != x
          ensures Less(x, j)
        {
          if j != m {
            LessTransitive(x, m, j);
          }
        }
        assert IsLeast(x, s);
      } else {
        assert IsLeast(m, s);
      }
    }
  }

  lemma LeastUnique(s: set<Bytes>)
    ensures forall a, b :: IsLeast(a, s) && IsLeast(b, s) ==> a == b
  {
    forall a, b | IsLeast(a, s) && IsLeast(b, s)
      ensures a == b
    {
      if a != b {
        LessAsymmetric(a, b);
      }
    }
  }

  /** The keys of `s` in increasing order (sort.Strings on the key list). */
  function SortedKeys(s: set<Bytes>): (r: seq<Bytes>)
    ensures Enumerates(r, s)
    ensures StrictlySorted(r)
    decreases s
  {
    if s == {} then []
    else
      LeastExists(s);
      LeastUnique(s);
      var k :| IsLeast(k, s);
      var rest := SortedKeys(s - {k});
      assert forall j | 0 <= j < |rest| :: Less(k, rest[j]);
      [k] + rest
  }

  /** The head of a strictly sorted enumeration is the least key. */
  lemma HeadIsLeast(r: seq<Bytes>, s: set<Bytes>)
    requires Enumerates(r, s) && StrictlySorted(r) && r != []
    ensures IsLeast(r[0], s)
  {
    forall j | j in s && j != r[0]
      ensures Less(r[0], j)
    {
      var t :| 0 <= t < |r| && r[t] == j;
    }
  }

  /** Dropping the head of a strictly sorted enumeration enumerates the other keys. */
  lemma TailEnumerates(r: seq<Bytes>, s: set<Bytes>)
    requires Enumerates(r, s) && StrictlySorted(r) && r != []
    ensures Enumerates(r[1..], s - {r[0]}) && StrictlySorted(r[1..])
  {
    forall k | k in s - {r[0]}
      ensures k in r[1..]
    {
      var t :| 0 <= t < |r| && r[t] == k;
    }
  }

  /** SortedKeys peels off its head, then sorts the remaining keys. */
  lemma SortedKeysUnfold(s: set<Bytes>)
    requires s != {}
    ensures var q := SortedKeys(s); q != [] && q[1..] == SortedKeys(s - {q[0]})
  {
  }

  /** A strictly sorted enumeration of a set is unique, so it is SortedKeys. */
  lemma {:induction false} SortedEnumerationIsSortedKeys(r: seq<Bytes>, s: set<Bytes>)
    requires Enumerates(r, s) && StrictlySorted(r)
    ensures r == SortedKeys(s)
    decreases |r|
  {
    if r != [] {
      assert r[0] in s;
      var q := SortedKeys(s);
      SortedKeysUnfold(s);
      assert r[0] == q[0] by {
        HeadIsLeast(r, s);
        HeadIsLeast(q, s);
        LeastUnique(s);
      }
      assert r[1..] == q[1..] by {
        TailEnumerates(r, s);
        SortedEnumerationIsSortedKeys(r[1..], s - {r[0]});
      }
      assert r == [r[0]] + r[1..] && q == [q[0]] + q[1..];
    }
  }
}
