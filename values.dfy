/**
  Script values and their coercion to wire strings (getValue in body.go).
  The scripting runtime hands the engine dynamically typed values; the
  engine accepts Go `int` and `string` and panics on every other kind.
 */
module Values {

  import opened Wrappers
  import opened Bytes

  /**
    A value bound in the scripting runtime. `Dict` is a parameter bag
    (map[string]langs.Value). `Other` is any further kind (bool, list,
    function, ...); `json` is what Go's JSON encoder makes of it, or None
    when the encoder refuses it.
   */
  datatype Value =
    | Int(n: int)
    | Str(s: Bytes)
    | Dict(entries: map<Bytes, Value>)
    | Other(kind: Bytes, json: Option<Bytes>)

  /** A Unicode scalar value: what Go accepts as a valid rune. */
  predicate IsScalar(n: int) {
    0 <= n <= 0x10FFFF && !(0xD800 <= n <= 0xDFFF)
  }

  const REPLACEMENT_CHAR: int := 0xFFFD

  /**
    Go's conversion string(n) of an integer: the UTF-8 encoding of the code
    point n, or of U+FFFD when n is not a valid code point.
   */
  function RuneBytes(n: int): Bytes {
    if !IsScalar(n) then [0xEF, 0xBF, 0xBD]
    else if n < 0x80 then [n as byte]
    else if n < 0x800 then [(0xC0 + n / 64) as byte, (0x80 + n % 64) as byte]
    else if n < 0x10000 then
      [(0xE0 + n / 4096) as byte, (0x80 + (n / 64) % 64) as byte, (0x80 + n % 64) as byte]
    else
      [(0xF0 + n / 262144) as byte, (0x80 + (n / 4096) % 64) as byte,
       (0x80 + (n / 64) % 64) as byte, (0x80 + n % 64) as byte]
  }

  predicate IsContinuation(b: byte) {
    0x80 <= b <= 0xBF
  }

  /**
    Strict UTF-8 decoding of a byte string holding exactly one code point:
    None for a sequence that is empty, too long, overlong, a surrogate, above
    U+10FFFF or not well formed.
   */
  function DecodeRune(b: Bytes): Option<int> {
    if |b| == 1 && b[0] < 0x80 then Some(b[0] as int)
    else if |b| == 2 && 0xC2 <= b[0] <= 0xDF && IsContinuation(b[1]) then
      Some((b[0] as int - 0xC0) * 64 + (b[1] as int - 0x80))
    else if |b| == 3 && 0xE0 <= b[0] <= 0xEF && IsContinuation(b[1]) && IsContinuation(b[2]) then
      var c := (b[0] as int - 0xE0) * 4096 + (b[1] as int - 0x80) * 64 + (b[2] as int - 0x80);
      if 0x800 <= c && !(0xD800 <= c <= 0xDFFF) then Some(c) else None
    else if |b| == 4 && 0xF0 <= b[0] <= 0xF4 && IsContinuation(b[1]) && IsContinuation(b[2])
            && IsContinuation(b[3]) then
      var c := (b[0] as int - 0xF0) * 262144 + (b[1] as int - 0x80) * 4096
               + (b[2] as int - 0x80) * 64 + (b[3] as int - 0x80);
      if 0x10000 <= c <= 0x10FFFF then Some(c) else None
    else None
  }

  /** string(n) always yields exactly one well-formed code point. */
  lemma RuneBytesDecodes(n: int)
    ensures 1 <= |RuneBytes(n)| <= 4
    ensures DecodeRune(RuneBytes(n)) == Some(if IsScalar(n) then n else REPLACEMENT_CHAR)
  {
    if IsScalar(n) && 0x80 <= n < 0x800 {
      TwoByteRuneDecodes(n);
    } else if IsScalar(n) && 0x800 <= n < 0x10000 {
      ThreeByteRuneDecodes(n);
    } else if IsScalar(n) && 0x10000 <= n {
      FourByteRuneDecodes(n);
    }
  }

  lemma TwoByteRuneDecodes(n: int)
    requires 0x80 <= n < 0x800
    ensures DecodeRune(RuneBytes(n)) == Some(n)
  {
    var hi, lo := n / 64, n % 64;
    assert 2 <= hi < 32 && n == hi * 64 + lo;
    assert RuneBytes(n) == [(0xC0 + hi) as byte, (0x80 + lo) as byte];
  }

  lemma ThreeByteRuneDecodes(n: int)
    requires 0x800 <= n < 0x10000 && !(0xD800 <= n <= 0xDFFF)
    ensures DecodeRune(RuneBytes(n)) == Some(n)
  {
    var q, lo := n / 64, n % 64;
    assert n == q * 64 + lo;
    var t, m := q / 64, q % 64;
    assert q == t * 64 + m;
    assert n == t * 4096 + m * 64 + lo;
    assert n / 4096 == t;
    assert RuneBytes(n) == [(0xE0 + t) as byte, (0x80 + m) as byte, (0x80 + lo) as byte];
  }

  lemma FourByteRuneDecodes(n: int)
    requires 0x10000 <= n <= 0x10FFFF
    ensures DecodeRune(RuneBytes(n)) == Some(n)
  {
    var q, lo := n / 64, n % 64;
    assert n == q * 64 + lo;
    var r, m := q / 64, q % 64;
    assert q == r * 64 + m;
    var t, k := r / 64, r % 64;
    assert r == t * 64 + k;
    assert n == t * 262144 + k * 4096 + m * 64 + lo;
    assert n / 4096 == r && n / 262144 == t;
    assert RuneBytes(n) == [(0xF0 + t) as byte, (0x80 + k) as byte, (0x80 + m) as byte, (0x80 + lo) as byte];
  }

  /** Every single-code-point UTF-8 string is string(c) of the code point c it holds. */
  lemma DecodeRuneCanonical(b: Bytes, c: int)
    requires DecodeRune(b) == Some(c)
    ensures IsScalar(c) && RuneBytes(c) == b
  {
    if |b| == 2 {
      TwoByteCanonical(b, c);
    } else if |b| == 3 {
      ThreeByteCanonical(b, c);
    } else if |b| == 4 {
      FourByteCanonical(b, c);
    }
  }

  lemma TwoByteCanonical(b: Bytes, c: int)
    requires |b| == 2 && DecodeRune(b) == Some(c)
    ensures IsScalar(c) && RuneBytes(c) == b
  {
    var hi, lo := b[0] as int - 0xC0, b[1] as int - 0x80;
    assert c == hi * 64 + lo && 0 <= lo < 64;
    assert c / 64 == hi && c % 64 == lo;
  }

  lemma ThreeByteCanonical(b: Bytes, c: int)
    requires |b| == 3 && DecodeRune(b) == Some(c)
    ensures IsScalar(c) && RuneBytes(c) == b
  {
    var x, y, z := b[0] as int - 0xE0, b[1] as int - 0x80, b[2] as int - 0x80;
    assert c == x * 4096 + y * 64 + z && 0 <= y < 64 && 0 <= z < 64;
    var q := x * 64 + y;
    assert c == q * 64 + z;
    assert c / 64 == q && c % 64 == z;
    assert q / 64 == x && q % 64 == y;
    assert c / 4096 == x;
  }

  lemma FourByteCanonical(b: Bytes, c: int)
    requires |b| == 4 && DecodeRune(b) == Some(c)
    ensures IsScalar(c) && RuneBytes(c) == b
  {
    var w, x, y, z := b[0] as int - 0xF0, b[1] as int - 0x80, b[2] as int - 0x80, b[3] as int - 0x80;
    assert 0 <= x < 64 && 0 <= y < 64 && 0 <= z < 64;
    var r := w * 64 + x;
    var q := r * 64 + y;
    assert c == q * 64 + z;
    assert c / 64 == q && c % 64 == z;
    assert q / 64 == r && q % 64 == y;
    assert r / 64 == w && r % 64 == x;
    assert c / 4096 == r && c / 262144 == w;
  }

  /** The result of getValue: the wire string, or the value it panics on. */
  datatype Coerced = Text(s: Bytes) | Unsupported(v: Value)

  /** getValue: int becomes string(n), a string is kept, every other kind is rejected. */
  function GetValue(v: Value): (r: Coerced)
    ensures r.Unsupported? ==> r.v == v
  {
    match v
    case Int(n) => Text(RuneBytes(n))
    case Str(s) => Text(s)
    case _ => Unsupported(v)
  }

  predicate Coercible(v: Value) {
    GetValue(v).Text?
  }

  /**
    Coercion accepts exactly the two supported kinds; a string passes through
    unchanged and an integer becomes one code point, never its decimal digits.
   */
  lemma CoercionTable(v: Value)
    ensures Coercible(v) <==> v.Int? || v.Str?
    ensures v.Str? ==> GetValue(v) == Text(v.s)
    ensures v.Int? ==> DecodeRune(GetValue(v).s) == Some(if IsScalar(v.n) then v.n else REPLACEMENT_CHAR)
  {
    if v.Int? {
      RuneBytesDecodes(v.n);
    }
  }

  /** The integer 42 coerces to "*" (code point 42), not to "42". */
  lemma CoercedIntIsNotDecimal()
    ensures GetValue(Int(42)) == Text([0x2A])
    ensures GetValue(Int(42)) != Text(Ascii("42"))
  {
  }

  /** The integer 64 coerces to "@", the file sigil of the multipart encoder. */
  lemma IntCoercesToSigilOnlyAt64(n: int)
    ensures HasSigil(GetValue(Int(n)).s) <==> n == 64
  {
  }
}
