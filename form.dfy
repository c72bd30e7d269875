/**
  The application/x-www-form-urlencoded wire format as Go's net/url writes
  and reads it: url.Values, Values.Set, Values.Encode (keys sorted,
  QueryEscape on keys and values), QueryUnescape and ParseQuery.
  QueryEscape keeps the unreserved bytes of section 2.3 of RFC 3986, turns a
  space into '+' and writes every other byte as %XX with upper-case hex.
 */
module Form {

  import opened Wrappers
  import opened Bytes

  /** url.Values: each key with its list of values. */
  type Values = map<Bytes, seq<Bytes>>

  /** Values.Set: the key's value list becomes exactly [value]. */
  function Set(v: Values, key: Bytes, value: Bytes): (r: Values)
    ensures r.Keys == v.Keys + {key}
    ensures r[key] == [value]
    ensures forall k | k in v && k != key :: r[k] == v[k]
  {
    v[key := [value]]
  }

  /** The unreserved characters of section 2.3 of RFC 3986: ALPHA / DIGIT / "-" / "." / "_" / "~". */
  predicate Unreserved(b: byte) {
    || 0x41 <= b <= 0x5A
    || 0x61 <= b <= 0x7A
    || 0x30 <= b <= 0x39
    || b == 0x2D || b == 0x2E || b == 0x5F || b == 0x7E
  }

  /** "0123456789ABCDEF"[d] */
  function HexDigit(d: int): (r: byte)
    requires 0 <= d < 16
    ensures IsHex(r) && Unhex(r) == d
  {
    if d < 10 then (0x30 + d) as byte else (0x41 + d - 10) as byte
  }

  predicate IsHex(b: byte) {
    0x30 <= b <= 0x39 || 0x41 <= b <= 0x46 || 0x61 <= b <= 0x66
  }

  function Unhex(b: byte): int
    requires IsHex(b)
  {
    if b <= 0x39 then b as int - 0x30
    else if b <= 0x46 then b as int - 0x41 + 10
    else b as int - 0x61 + 10
  }

  function EscapeByte(b: byte): Bytes {
    if Unreserved(b) then [b]
    else if b == SPACE then [PLUS]
    else [PERCENT, HexDigit(b as int / 16), HexDigit(b as int % 16)]
  }

  /** url.QueryEscape */
  function QueryEscape(s: Bytes): Bytes {
    if s == [] then [] else EscapeByte(s[0]) + QueryEscape(s[1..])
  }

  /** An escaping error: url.EscapeError carrying the bad "%.." text (at most three bytes). */
  datatype QueryError = InvalidEscape(text: Bytes) | InvalidSemicolon

  /** url.QueryUnescape: %XX is a byte, '+' is a space, anything else stands for itself. */
  function QueryUnescape(s: Bytes): Result<Bytes, QueryError>
    decreases |s|
  {
    if s == [] then Success([])
    else if s[0] == PERCENT then
      if |s| < 3 || !IsHex(s[1]) || !IsHex(s[2]) then
        Failure(InvalidEscape(if |s| < 3 then s else s[..3]))
      else
        match QueryUnescape(s[3..])
        case Success(rest) => Success([(Unhex(s[1]) * 16 + Unhex(s[2])) as byte] + rest)
        case Failure(e) => Failure(e)
    else
      match QueryUnescape(s[1..])
      case Success(rest) => Success([if s[0] == PLUS then SPACE else s[0]] + rest)
      case Failure(e) => Failure(e)
  }

  /** Escaped text never contains the separators of the form syntax. */
  predicate FreeOfSeparators(s: Bytes) {
    forall i | 0 <= i < |s| :: s[i] != AMPERSAND && s[i] != EQUALS && s[i] != SEMICOLON && s[i] != SPACE
  }

  lemma {:induction false} QueryEscapeFreeOfSeparators(s: Bytes)
    ensures FreeOfSeparators(QueryEscape(s))
  {
    if s != [] {
      QueryEscapeFreeOfSeparators(s[1..]);
    }
  }

  /** Round trip of the escaping: QueryUnescape(QueryEscape(s)) gives s back. */
  lemma {:induction false} UnescapeEscape(s: Bytes)
    ensures QueryUnescape(QueryEscape(s)) == Success(s)
  {
    if s != [] {
      var b, rest := s[0], QueryEscape(s[1..]);
      UnescapeEscape(s[1..]);
      var e := EscapeByte(b) + rest;
      assert QueryEscape(s) == e;
      if Unreserved(b) {
        assert e[1..] == rest;
      } else if b == SPACE {
        assert e[1..] == rest;
      } else {
        assert e[3..] == rest;
        assert Unhex(e[1]) * 16 + Unhex(e[2]) == b as int;
      }
      assert s == [b] + s[1..];
    }
  }

  /** "k=v" for one key/value pair. */
  function Piece(key: Bytes, value: Bytes): Bytes {
    QueryEscape(key) + [EQUALS] + QueryEscape(value)
  }

  /** One pair per key and value, keys in the order of `keys`, values in list order. */
  function Pairs(keys: seq<Bytes>, v: Values): seq<(Bytes, Bytes)>
    requires forall i | 0 <= i < |keys| :: keys[i] in v
  {
    if keys == [] then [] else Group(keys[0], v[keys[0]]) + Pairs(keys[1..], v)
  }

  function Group(key: Bytes, values: seq<Bytes>): seq<(Bytes, Bytes)> {
    seq(|values|, i requires 0 <= i < |values| => (key, values[i]))
  }

  /** The pieces joined by '&'. */
  function Join(pairs: seq<(Bytes, Bytes)>): Bytes {
    if pairs == [] then []
    else if |pairs| == 1 then Piece(pairs[0].0, pairs[0].1)
    else Piece(pairs[0].0, pairs[0].1) + [AMPERSAND] + Join(pairs[1..])
  }

  /** Values.Encode: "k1=v1&k2=v2..." with the keys in sorted order. */
  function Encode(v: Values): Bytes {
    Join(Pairs(SortedKeys(v.Keys), v))
  }

  /**
    The result of url.ParseQuery: the values collected and the error
    reported, which is the semicolon error if any piece has a ';' and
    otherwise the first unescaping error in text order.
   */
  datatype Parsed = Parsed(values: Values, err: Option<QueryError>)

  function Lookup(m: Values, k: Bytes): seq<Bytes> {
    if k in m then m[k] else []
  }

  /**
    The error of a skipped piece that failed to unescape, given the parse of
    the rest: Go keeps an unescaping error only while no error is set, and
    sets the semicolon error whenever it meets one, so a semicolon error
    later in the text wins over this one.
   */
  function EscapeFailure(e: QueryError, tail: Parsed): Parsed {
    Parsed(tail.values, if tail.err == Some(InvalidSemicolon) then tail.err else Some(e))
  }

  /** The values and error of one '&'-separated piece followed by the parse of the rest. */
  function ParsePiece(piece: Bytes, tail: Parsed): Parsed {
    if SEMICOLON in piece then Parsed(tail.values, Some(InvalidSemicolon))
    else if piece == [] then tail
    else
      var j := IndexOf(piece, EQUALS);
      var key := piece[..j];
      var value := if j < |piece| then piece[j + 1..] else [];
      match (QueryUnescape(key), QueryUnescape(value))
      case (Failure(e), _) => EscapeFailure(e, tail)
      case (_, Failure(e)) => EscapeFailure(e, tail)
      case (Success(k), Success(x)) => Parsed(tail.values[k := [x] + Lookup(tail.values, k)], tail.err)
  }

  /**
    url.ParseQuery: split at each '&'; a piece with ';' is skipped and sets
    the semicolon error, an empty piece is skipped, otherwise it is cut at
    the first '=' and both halves are unescaped; a piece that fails to
    unescape is skipped and its error kept if no error was set before it.
    Values accumulate in text order.
   */
  function ParseQuery(q: Bytes): Parsed
    decreases |q|
  {
    if q == [] then Parsed(map[], None)
    else
      var i := IndexOf(q, AMPERSAND);
      var rest := if i < |q| then q[i + 1..] else [];
      ParsePiece(q[..i], ParseQuery(rest))
  }

  /** The values a list of pairs denotes, collected as ParseQuery collects them. */
  function Collect(pairs: seq<(Bytes, Bytes)>): Values {
    if pairs == [] then map[]
    else
      var m := Collect(pairs[1..]);
      m[pairs[0].0 := [pairs[0].1] + Lookup(m, pairs[0].0)]
  }

  lemma ParsePieceOfPiece(key: Bytes, value: Bytes, tail: Parsed)
    ensures ParsePiece(Piece(key, value), tail)
            == Parsed(tail.values[key := [value] + Lookup(tail.values, key)], tail.err)
  {
    var ek, ev := QueryEscape(key), QueryEscape(value);
    var p := Piece(key, value);
    QueryEscapeFreeOfSeparators(key);
    QueryEscapeFreeOfSeparators(value);
    assert p[|ek|] == EQUALS;
    assert IndexOf(p, EQUALS) == |ek|;
    assert p[..|ek|] == ek;
    assert p[|ek| + 1..] == ev;
    assert SEMICOLON !in p by {
      forall i | 0 <= i < |p| ensures p[i] != SEMICOLON {
        if i < |ek| { assert p[i] == ek[i]; }
        else if i > |ek| { assert p[i] == ev[i - |ek| - 1]; }
      }
    }
    UnescapeEscape(key);
    UnescapeEscape(value);
  }

  /** A written piece is never empty and never contains the pair separator. */
  lemma PieceFreeOfAmpersand(key: Bytes, value: Bytes)
    ensures Piece(key, value) != [] && AMPERSAND !in Piece(key, value)
  {
    var p, ek := Piece(key, value), QueryEscape(key);
    QueryEscapeFreeOfSeparators(key);
    QueryEscapeFreeOfSeparators(value);
    forall i | 0 <= i < |p| ensures p[i] != AMPERSAND {
      if i < |ek| { assert p[i] == ek[i]; }
      else if i > |ek| { assert p[i] == QueryEscape(value)[i - |ek| - 1]; }
    }
  }

  /** ParseQuery cuts at the first '&': the piece before it, then the rest. */
  lemma ParseQueryFirstPiece(p: Bytes, rest: Bytes)
    requires p != [] && AMPERSAND !in p
    ensures ParseQuery(p + [AMPERSAND] + rest) == ParsePiece(p, ParseQuery(rest))
  {
    var q := p + [AMPERSAND] + rest;
    var i := IndexOf(q, AMPERSAND);
    assert q[|p|] == AMPERSAND;
    assert forall j | 0 <= j < |p| :: q[j] == p[j];
    assert i == |p|;
    assert q[..i] == p;
    assert q[i + 1..] == rest;
  }

  /** A query without '&' is one piece. */
  lemma ParseQueryLastPiece(p: Bytes)
    requires p != [] && AMPERSAND !in p
    ensures ParseQuery(p) == ParsePiece(p, Parsed(map[], None))
  {
    var i := IndexOf(p, AMPERSAND);
    assert i == |p|;
    assert p[..i] == p;
  }

  /** An unescaping failure is always an escape error, never the semicolon error. */
  lemma {:induction false} UnescapeFailsWithEscape(s: Bytes)
    ensures QueryUnescape(s).Failure? ==> QueryUnescape(s).error.InvalidEscape?
    decreases |s|
  {
    if s != [] {
      if s[0] == PERCENT {
        if |s| >= 3 && IsHex(s[1]) && IsHex(s[2]) {
          UnescapeFailsWithEscape(s[3..]);
        }
      } else {
        UnescapeFailsWithEscape(s[1..]);
      }
    }
  }

  /** One piece sets the semicolon error exactly when it holds a ';' or the rest of the query did. */
  lemma PieceSemicolon(piece: Bytes, tail: Parsed)
    ensures ParsePiece(piece, tail).err == Some(InvalidSemicolon)
            <==> SEMICOLON in piece || tail.err == Some(InvalidSemicolon)
  {
    if SEMICOLON !in piece && piece != [] {
      var j := IndexOf(piece, EQUALS);
      UnescapeFailsWithEscape(piece[..j]);
      UnescapeFailsWithEscape(if j < |piece| then piece[j + 1..] else []);
    }
  }

  /** A byte other than '&' is in the query exactly when it is in its first piece or in the rest. */
  lemma SplitKeeps(q: Bytes, i: nat, b: byte)
    requires i <= |q| && (i < |q| ==> q[i] == AMPERSAND) && b != AMPERSAND
    ensures b in q <==> b in q[..i] || b in (if i < |q| then q[i + 1..] else [])
  {
    if i < |q| {
      assert q == q[..i] + [AMPERSAND] + q[i + 1..];
    } else {
      assert q == q[..i];
    }
  }

  /** ParseQuery reports the semicolon error exactly when the query holds a ';', wherever it sits. */
  lemma {:induction false} ParseQuerySemicolonWins(q: Bytes)
    ensures ParseQuery(q).err == Some(InvalidSemicolon) <==> SEMICOLON in q
    decreases |q|
  {
    if q != [] {
      var i := IndexOf(q, AMPERSAND);
      var rest := if i < |q| then q[i + 1..] else [];
      ParseQuerySemicolonWins(rest);
      PieceSemicolon(q[..i], ParseQuery(rest));
      SplitKeeps(q, i, SEMICOLON);
    }
  }

  /** "%zz&a;b": the bad escape comes first, yet the semicolon error is the one reported. */
  lemma SemicolonSample()
    ensures ParseQuery([0x25, 0x7A, 0x7A, 0x26, 0x61, 0x3B, 0x62]).err == Some(InvalidSemicolon)
  {
    var q: Bytes := [0x25, 0x7A, 0x7A, 0x26, 0x61, 0x3B, 0x62];
    assert q[5] == SEMICOLON;
    ParseQuerySemicolonWins(q);
  }

  /** Parsing joined, escaped pairs gives back exactly the pairs, with no error. */
  lemma {:induction false} ParseJoin(pairs: seq<(Bytes, Bytes)>)
    ensures ParseQuery(Join(pairs)) == Parsed(Collect(pairs), None)
  {
    if pairs != [] {
      var (key, value) := pairs[0];
      var p := Piece(key, value);
      PieceFreeOfAmpersand(key, value);
      ParseJoin(pairs[1..]);
      ParsePieceOfPiece(key, value, ParseQuery(Join(pairs[1..])));
      if |pairs| == 1 {
        ParseQueryLastPiece(p);
      } else {
        ParseQueryFirstPiece(p, Join(pairs[1..]));
      }
    }
  }

  lemma CollectCons(pair: (Bytes, Bytes), rest: seq<(Bytes, Bytes)>)
    ensures Collect([pair] + rest) == Collect(rest)[pair.0 := [pair.1] + Lookup(Collect(rest), pair.0)]
  {
    assert ([pair] + rest)[1..] == rest;
  }

  lemma GroupCons(key: Bytes, values: seq<Bytes>)
    requires values != []
    ensures Group(key, values) == [(key, values[0])] + Group(key, values[1..])
  {
  }

  /** Collecting one key's values ahead of other pairs puts them before that key's later values. */
  lemma {:induction false} CollectGroup(key: Bytes, values: seq<Bytes>, rest: seq<(Bytes, Bytes)>)
    requires values != []
    ensures Collect(Group(key, values) + rest) == Collect(rest)[key := values + Lookup(Collect(rest), key)]
    decreases |values|
  {
    var tail := Group(key, values[1..]) + rest;
    var c, m := Collect(rest), Collect(tail);
    assert Collect(Group(key, values) + rest) == m[key := [values[0]] + Lookup(m, key)] by {
      GroupCons(key, values);
      assert Group(key, values) + rest == [(key, values[0])] + tail;
      CollectCons((key, values[0]), tail);
    }
    if |values| == 1 {
      assert m == c by { assert tail == rest; }
      assert [values[0]] == values;
    } else {
      var whole := values + Lookup(c, key);
      assert m == c[key := values[1..] + Lookup(c, key)] by {
        CollectGroup(key, values[1..], rest);
      }
      assert [values[0]] + Lookup(m, key) == whole by {
        assert [values[0]] + (values[1..] + Lookup(c, key)) == whole;
      }
      assert m[key := whole] == c[key := whole];
    }
  }

  /** The pairs of distinct keys, each with a non-empty list, collect back to those lists. */
  lemma {:induction false} CollectPairs(keys: seq<Bytes>, v: Values)
    requires Distinct(keys)
    requires forall i | 0 <= i < |keys| :: keys[i] in v && v[keys[i]] != []
    ensures Collect(Pairs(keys, v)) == map k | k in keys :: v[k]
  {
    if keys != [] {
      var k := keys[0];
      CollectPairs(keys[1..], v);
      CollectGroup(k, v[k], Pairs(keys[1..], v));
      assert k !in keys[1..] by {
        forall i | 1 <= i < |keys| ensures keys[i] != k {}
      }
      var c := Collect(Pairs(keys[1..], v));
      assert Lookup(c, k) == [];
      assert v[k] + [] == v[k];
      assert Collect(Pairs(keys, v)) == c[k := v[k]];
    }
  }

  /**
    The round-trip law of the form encoding: parsing Values.Encode(v) gives
    v back with no error, whenever every key has at least one value (a key
    with no value is not written).
   */
  lemma FormRoundTrip(v: Values)
    requires forall k | k in v :: v[k] != []
    ensures ParseQuery(Encode(v)) == Parsed(v, None)
  {
    var keys := SortedKeys(v.Keys);
    ParseJoin(Pairs(keys, v));
    CollectPairs(keys, v);
  }

  /** The keys of the sample, in encoding order. */
  lemma SampleKeys(keys: set<Bytes>)
    requires keys == {[0x61], [0x62]}
    ensures SortedKeys(keys) == [[0x61], [0x62]]
  {
    var a, b: Bytes := [0x61], [0x62];
    assert Less(a, b);
    SortedEnumerationIsSortedKeys([a, b], keys);
  }

  /** The pairs of the sample, in encoding order. */
  lemma SamplePairs(v: Values)
    requires v == map[[0x61] := [[0x31]], [0x62] := [[0x78, 0x20, 0x79]]]
    ensures Pairs(SortedKeys(v.Keys), v) == [([0x61], [0x31]), ([0x62], [0x78, 0x20, 0x79])]
  {
    var a, b: Bytes := [0x61], [0x62];
    SampleKeys(v.Keys);
    assert Pairs([b], v) == [(b, v[b][0])] by {
      assert Pairs([b], v) == Group(b, v[b]) + Pairs([], v);
    }
    assert Pairs([a, b], v) == [(a, v[a][0])] + Pairs([b], v) by {
      assert [a, b][1..] == [b];
    }
  }

  lemma SampleEscapes()
    ensures QueryEscape([0x61]) == [0x61] && QueryEscape([0x62]) == [0x62]
    ensures QueryEscape([0x31]) == [0x31]
    ensures QueryEscape([0x78, 0x20, 0x79]) == [0x78, 0x2B, 0x79]
  {
    assert EscapeByte(0x61) == [0x61];
    assert EscapeByte(0x62) == [0x62];
    assert EscapeByte(0x31) == [0x31];
    assert QueryEscape([0x79]) == [0x79];
    assert QueryEscape([0x20, 0x79]) == [0x2B, 0x79];
  }

  /** The sample {"b": "x y", "a": "1"} encodes to "a=1&b=x+y" (bytes written in hex). */
  lemma EncodeSample()
    ensures Encode(map[[0x61] := [[0x31]], [0x62] := [[0x78, 0x20, 0x79]]])
            == [0x61, 0x3D, 0x31, 0x26, 0x62, 0x3D, 0x78, 0x2B, 0x79]
  {
    var v: Values := map[[0x61] := [[0x31]], [0x62] := [[0x78, 0x20, 0x79]]];
    var pairs: seq<(Bytes, Bytes)> := [([0x61], [0x31]), ([0x62], [0x78, 0x20, 0x79])];
    SamplePairs(v);
    SampleEscapes();
    assert pairs[1..] == [([0x62], [0x78, 0x20, 0x79])];
    assert Join(pairs) == Piece([0x61], [0x31]) + [AMPERSAND] + Piece([0x62], [0x78, 0x20, 0x79]);
  }
}
