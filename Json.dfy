/**
 * JSON values (RFC 8259) as the client exchanges them with a bulb: the
 * compact encoder behaves as PHP's json_encode with its default flags, and
 * the decoder reads the integer, string, array, object and literal forms of
 * RFC 8259, with insignificant whitespace, as json_decode does for them.
 */
module Json {
  import opened Wrappers
  import opened Text

  /** An object keeps its members in order, as a PHP associative array does. */
  datatype Json =
    | Null
    | Bool(b: bool)
    | Int(i: int)
    | Str(s: string)
    | Arr(elems: seq<Json>)
    | Obj(members: seq<Member>)

  datatype Member = Member(key: string, value: Json)

  // ---------------------------------------------------------------------
  // Encoding

  /** Four lower-case hexadecimal digits, as in a "\uxxxx" escape. */
  function Hex4(n: nat): (s: string)
    requires n < 0x10000
    ensures |s| == 4 && forall k :: 0 <= k < 4 ==> IsHexDigit(s[k])
  {
    [HexChar(n / 16 / 16 / 16), HexChar(n / 16 / 16 % 16), HexChar(n / 16 % 16), HexChar(n % 16)]
  }

  /** How json_encode writes one character of a string. */
  function EscapeChar(c: char): string
  {
    if c == '"' then "\\\""
    else if c == '\\' then "\\\\"
    else if c == '/' then "\\/"
    else if c as int == 0x08 then "\\b"
    else if c as int == 0x0C then "\\f"
    else if c == '\n' then "\\n"
    else if c == '\r' then "\\r"
    else if c == '\t' then "\\t"
    else if c as int < 0x20 || 0x80 <= c as int < 0x10000 then UnicodeEscape(c as int)
    else if c as int < 0x80 then [c]
    else UnicodeEscape(HighSurrogate(c)) + UnicodeEscape(LowSurrogate(c))
  }

  function UnicodeEscape(n: nat): string
    requires n < 0x10000
  {
    "\\u" + Hex4(n)
  }

  /** The UTF-16 surrogates of a character above the Basic Multilingual Plane. */
  function HighSurrogate(c: char): (hi: nat)
    requires c as int >= 0x10000
    ensures 0xD800 <= hi < 0xDC00
  {
    0xD800 + (c as int - 0x10000) / 0x400
  }

  function LowSurrogate(c: char): (lo: nat)
    requires c as int >= 0x10000
    ensures 0xDC00 <= lo < 0xE000
  {
    0xDC00 + (c as int - 0x10000) % 0x400
  }

  function Escape(s: string): string
  {
    if s == [] then "" else EscapeChar(s[0]) + Escape(s[1..])
  }

  function Quote(s: string): string
  {
    "\"" + Escape(s) + "\""
  }

  /** json_encode: compact text, no whitespace between tokens. */
  function Encode(v: Json): string
    decreases v, 1
  {
    match v
    case Null => "null"
    case Bool(b) => if b then "true" else "false"
    case Int(i) => IntText(i)
    case Str(s) => Quote(s)
    case Arr(a) => "[" + EncodeElems(a) + "]"
    case Obj(m) => "{" + EncodeMembers(m) + "}"
  }

  /** The elements of an array, separated by commas. */
  function EncodeElems(a: seq<Json>): string
    decreases a, 0
  {
    if |a| == 0 then ""
    else if |a| == 1 then Encode(a[0])
    else Encode(a[0]) + "," + EncodeElems(a[1..])
  }

  /** The members of an object, each "key":value, separated by commas. */
  function EncodeMembers(m: seq<Member>): string
    decreases m, 0
  {
    if |m| == 0 then ""
    else if |m| == 1 then Quote(m[0].key) + ":" + Encode(m[0].value)
    else Quote(m[0].key) + ":" + Encode(m[0].value) + "," + EncodeMembers(m[1..])
  }

  // ---------------------------------------------------------------------
  // Decoding

  /** Insignificant whitespace of RFC 8259, section 2. */
  predicate IsWs(c: char) { c == ' ' || c == '\t' || c == '\n' || c == '\r' }

  function SkipWs(s: string): (r: string)
    ensures |r| <= |s|
    ensures r == [] || !IsWs(r[0])
  {
    if s != [] && IsWs(s[0]) then SkipWs(s[1..]) else s
  }

  /** The value of four hexadecimal digits at the start of s. */
  function Hex4At(s: string): (r: Option<nat>)
    ensures r.Some? ==> r.value < 0x10000
  {
    if |s| >= 4 && IsHexDigit(s[0]) && IsHexDigit(s[1]) && IsHexDigit(s[2]) && IsHexDigit(s[3]) then
      Some(HexValue(s[0]) * 0x1000 + HexValue(s[1]) * 0x100 + HexValue(s[2]) * 16 + HexValue(s[3]))
    else None
  }

  /** The character of a "\u" escape whose four digits start s; a lone surrogate is an error. */
  function ParseUnicodeEscape(s: string): (r: Option<(char, string)>)
    ensures r.Some? ==> |r.value.1| < |s|
  {
    match Hex4At(s)
    case None => None
    case Some(u) =>
      if 0xD800 <= u < 0xDC00 then
        var t := s[4..];
        if |t| >= 2 && t[0] == '\\' && t[1] == 'u' then
          match Hex4At(t[2..])
          case None => None
          case Some(l) =>
            if 0xDC00 <= l < 0xE000 then
              Some(((0x10000 + (u - 0xD800) * 0x400 + (l - 0xDC00)) as char, t[6..]))
            else None
        else None
      else if 0xDC00 <= u < 0xE000 then None
      else Some((u as char, s[4..]))
  }

  /** The character of an escape sequence, s being what follows the backslash. */
  function ParseEscape(s: string): (r: Option<(char, string)>)
    ensures r.Some? ==> |r.value.1| < |s|
  {
    if s == [] then None
    else if s[0] == '"' then Some(('"', s[1..]))
    else if s[0] == '\\' then Some(('\\', s[1..]))
    else if s[0] == '/' then Some(('/', s[1..]))
    else if s[0] == 'b' then Some((0x08 as char, s[1..]))
    else if s[0] == 'f' then Some((0x0C as char, s[1..]))
    else if s[0] == 'n' then Some(('\n', s[1..]))
    else if s[0] == 'r' then Some(('\r', s[1..]))
    else if s[0] == 't' then Some(('\t', s[1..]))
    else if s[0] == 'u' then ParseUnicodeEscape(s[1..])
    else None
  }

  /** One character of a string body; the closing quote and raw control characters are not. */
  function ParseChar(s: string): (r: Option<(char, string)>)
    ensures r.Some? ==> |r.value.1| < |s|
  {
    if s == [] then None
    else if s[0] == '\\' then ParseEscape(s[1..])
    else if s[0] == '"' || s[0] as int < 0x20 then None
    else Some((s[0], s[1..]))
  }

  /** A string body up to and including its closing quote (the opening quote already read). */
  function ParseString(s: string): (r: Option<(string, string)>)
    ensures r.Some? ==> |r.value.1| < |s|
    decreases |s|
  {
    if s == [] then None
    else if s[0] == '"' then Some(([], s[1..]))
    else
      match ParseChar(s)
      case None => None
      case Some((c, t)) =>
        match ParseString(t)
        case None => None
        case Some((u, rest)) => Some(([c] + u, rest))
  }

  /** The number of decimal digits at the start of s. */
  function DigitRun(s: string): (n: nat)
    ensures n <= |s| && AllDigits(s[..n])
    ensures n == |s| || !IsDigit(s[n])
  {
    if s != [] && IsDigit(s[0]) then
      var n := DigitRun(s[1..]);
      assert s[..n + 1] == [s[0]] + s[1..][..n];
      n + 1
    else 0
  }

  /** An integer: an optional minus and digits without a superfluous leading zero. */
  function ParseNumber(s: string): (r: Option<(Json, string)>)
    ensures r.Some? ==> |r.value.1| < |s|
  {
    var neg := s != [] && s[0] == '-';
    var t := if neg then s[1..] else s;
    var n := DigitRun(t);
    if n == 0 || (t[0] == '0' && n > 1) then None
    else
      var m: int := DecimalValue(t[..n]);
      Some((Int(if neg then -m else m), t[n..]))
  }

  /** One of the three literal names, spelled out at the start of t. */
  function ParseLiteral(t: string): (r: Option<(Json, string)>)
    ensures r.Some? ==> |r.value.1| < |t|
  {
    if |t| >= 4 && t[..4] == "null" then Some((Null, t[4..]))
    else if |t| >= 4 && t[..4] == "true" then Some((Bool(true), t[4..]))
    else if |t| >= 5 && t[..5] == "false" then Some((Bool(false), t[5..]))
    else None
  }

  /** A value after optional whitespace, and the text that follows it. */
  function ParseValue(s: string): (r: Option<(Json, string)>)
    ensures r.Some? ==> |r.value.1| < |s|
    decreases |s|, 0
  {
    var t := SkipWs(s);
    if t == [] then None
    else if t[0] == 'n' || t[0] == 't' || t[0] == 'f' then ParseLiteral(t)
    else if t[0] == '"' then
      match ParseString(t[1..])
      case None => None
      case Some((str, rest)) => Some((Str(str), rest))
    else if t[0] == '[' then ParseArray(t[1..])
    else if t[0] == '{' then ParseObject(t[1..])
    else if t[0] == '-' || IsDigit(t[0]) then ParseNumber(t)
    else None
  }

  /** An array after its opening bracket. */
  function ParseArray(s: string): (r: Option<(Json, string)>)
    ensures r.Some? ==> |r.value.1| < |s|
    decreases |s|, 2
  {
    var u := SkipWs(s);
    if u != [] && u[0] == ']' then Some((Arr([]), u[1..]))
    else
      match ParseElems(s)
      case None => None
      case Some((a, rest)) => Some((Arr(a), rest))
  }

  /** An object after its opening brace. */
  function ParseObject(s: string): (r: Option<(Json, string)>)
    ensures r.Some? ==> |r.value.1| < |s|
    decreases |s|, 2
  {
    var u := SkipWs(s);
    if u != [] && u[0] == '}' then Some((Obj([]), u[1..]))
    else
      match ParseMembers(s)
      case None => None
      case Some((m, rest)) => Some((Obj(m), rest))
  }

  /** One or more array elements and the closing bracket. */
  function ParseElems(s: string): (r: Option<(seq<Json>, string)>)
    ensures r.Some? ==> |r.value.1| < |s|
    decreases |s|, 1
  {
    match ParseValue(s)
    case None => None
    case Some((v, t)) =>
      var u := SkipWs(t);
      if u != [] && u[0] == ',' then
        match ParseElems(u[1..])
        case None => None
        case Some((vs, rest)) => Some(([v] + vs, rest))
      else if u != [] && u[0] == ']' then Some(([v], u[1..]))
      else None
  }

  /** One or more object members and the closing brace. */
  function ParseMembers(s: string): (r: Option<(seq<Member>, string)>)
    ensures r.Some? ==> |r.value.1| < |s|
    decreases |s|, 1
  {
    var t := SkipWs(s);
    if t == [] || t[0] != '"' then None
    else
      match ParseString(t[1..])
      case None => None
      case Some((key, t1)) =>
        var t2 := SkipWs(t1);
        if t2 == [] || t2[0] != ':' then None
        else
          match ParseValue(t2[1..])
          case None => None
          case Some((v, t3)) =>
            var u := SkipWs(t3);
            if u != [] && u[0] == ',' then
              match ParseMembers(u[1..])
              case None => None
              case Some((ms, rest)) => Some(([Member(key, v)] + ms, rest))
            else if u != [] && u[0] == '}' then Some(([Member(key, v)], u[1..]))
            else None
  }

  /** json_decode of a whole text: one value with nothing but whitespace around it. */
  function Decode(s: string): Option<Json>
  {
    match ParseValue(s)
    case None => None
    case Some((v, rest)) => if SkipWs(rest) == [] then Some(v) else None
  }

  // ---------------------------------------------------------------------
  // Member lookup

  predicate HasKey(m: seq<Member>, key: string)
  {
    exists k :: 0 <= k < |m| && m[k].key == key
  }

  /**
   * The value stored under key. With a repeated key the last member wins, as
   * json_decode does when it builds an associative array.
   */
  function Lookup(m: seq<Member>, key: string): (r: Option<Json>)
    ensures r.Some? <==> HasKey(m, key)
    ensures r.Some? ==> exists k :: 0 <= k < |m| && m[k] == Member(key, r.value)
  {
    if m == [] then None
    else if m[|m| - 1].key == key then Some(m[|m| - 1].value)
    else
      var r := Lookup(m[..|m| - 1], key);
      assert HasKey(m, key) ==> HasKey(m[..|m| - 1], key);
      assert r.Some? ==> exists k :: 0 <= k < |m| - 1 && m[k] == Member(key, r.value) by {
        if r.Some? {
          var k :| 0 <= k < |m| - 1 && m[..|m| - 1][k] == Member(key, r.value);
          assert m[k] == Member(key, r.value);
        }
      }
      r
  }

  // ---------------------------------------------------------------------
  // Properties of the encoding

  /** Printable ASCII (0x20 to 0x7F): in particular no CR and no LF. */
  predicate IsPrintableAscii(s: string)
  {
    forall k :: 0 <= k < |s| ==> 0x20 <= s[k] as int < 0x80
  }

  lemma PrintableConcat(a: string, b: string)
    requires IsPrintableAscii(a) && IsPrintableAscii(b)
    ensures IsPrintableAscii(a + b)
  {
  }

  lemma UnicodeEscapePrintable(n: nat)
    requires n < 0x10000
    ensures IsPrintableAscii(UnicodeEscape(n))
  {
  }

  lemma EscapeCharPrintable(c: char)
    ensures IsPrintableAscii(EscapeChar(c))
  {
    if HasShortEscape(c) {
    } else if c as int < 0x20 || 0x80 <= c as int < 0x10000 {
      UnicodeEscapePrintable(c as int);
    } else if c as int < 0x80 {
    } else {
      UnicodeEscapePrintable(HighSurrogate(c));
      UnicodeEscapePrintable(LowSurrogate(c));
      PrintableConcat(UnicodeEscape(HighSurrogate(c)), UnicodeEscape(LowSurrogate(c)));
    }
  }

  lemma {:induction false} EscapePrintable(s: string)
    ensures IsPrintableAscii(Escape(s))
  {
    if s != [] {
      EscapeCharPrintable(s[0]);
      EscapePrintable(s[1..]);
    }
  }

  lemma IntTextPrintable(i: int)
    ensures IsPrintableAscii(IntText(i))
  {
    IntTextHasNoOtherChars(i);
  }

  /**
   * An encoded value is printable ASCII, so it holds no line terminator:
   * a request always travels as exactly one line.
   */
  lemma {:induction false} EncodePrintable(v: Json)
    ensures IsPrintableAscii(Encode(v))
    decreases v, 1
  {
    match v
    case Null =>
    case Bool(b) =>
    case Int(i) => IntTextPrintable(i);
    case Str(s) => EscapePrintable(s);
    case Arr(a) => EncodeElemsPrintable(a);
    case Obj(m) => EncodeMembersPrintable(m);
  }

  lemma {:induction false} EncodeElemsPrintable(a: seq<Json>)
    ensures IsPrintableAscii(EncodeElems(a))
    decreases a, 0
  {
    if |a| == 1 {
      EncodePrintable(a[0]);
    } else if |a| > 1 {
      EncodePrintable(a[0]);
      EncodeElemsPrintable(a[1..]);
    }
  }

  lemma {:induction false} EncodeMembersPrintable(m: seq<Member>)
    ensures IsPrintableAscii(EncodeMembers(m))
    decreases m, 0
  {
    if |m| >= 1 {
      EscapePrintable(m[0].key);
      EncodePrintable(m[0].value);
      if |m| > 1 {
        EncodeMembersPrintable(m[1..]);
      }
    }
  }

  /** The first character of an encoded value opens a token, so it is neither whitespace nor a closing bracket. */
  lemma EncodeStartsToken(v: Json)
    ensures |Encode(v)| > 0
    ensures var c := Encode(v)[0];
      c == 'n' || c == 't' || c == 'f' || c == '"' || c == '[' || c == '{' || c == '-' || IsDigit(c)
  {
  }

  // ---------------------------------------------------------------------
  // Round trip: decoding undoes encoding

  lemma Hex4Value(n: nat)
    requires n < 0x10000
    ensures Hex4At(Hex4(n)) == Some(n)
  {
    var q1, q2 := n / 16, n / 16 / 16;
    assert n == q1 * 16 + n % 16;
    assert q1 == q2 * 16 + q1 % 16;
    assert q2 == q2 / 16 * 16 + q2 % 16;
  }

  lemma Hex4AtPrefix(n: nat, rest: string)
    requires n < 0x10000
    ensures Hex4At(Hex4(n) + rest) == Some(n)
    ensures (Hex4(n) + rest)[4..] == rest
  {
    Hex4Value(n);
    assert (Hex4(n) + rest)[..4] == Hex4(n);
  }

  lemma SurrogatePair(c: char)
    requires c as int >= 0x10000
    ensures 0x10000 + (HighSurrogate(c) - 0xD800) * 0x400 + (LowSurrogate(c) - 0xDC00) == c as int
  {
  }

  predicate HasShortEscape(c: char)
  {
    c == '"' || c == '\\' || c == '/' || c as int == 0x08 || c as int == 0x0C || c == '\n' || c == '\r' || c == '\t'
  }

  lemma ParseShortEscape(c: char, rest: string)
    requires HasShortEscape(c)
    ensures ParseChar(EscapeChar(c) + rest) == Some((c, rest))
  {
    var s := EscapeChar(c) + rest;
    assert |EscapeChar(c)| == 2 && s[0] == '\\' && s[1] == EscapeChar(c)[1];
    assert s[1..][1..] == rest;
  }

  lemma ParseUnicodeEscapeOf(n: nat, rest: string)
    requires n < 0xD800 || 0xE000 <= n < 0x10000
    ensures ParseChar(UnicodeEscape(n) + rest) == Some((n as char, rest))
  {
    var s := UnicodeEscape(n) + rest;
    assert s[0] == '\\' && s[1..][0] == 'u';
    assert s[1..][1..] == Hex4(n) + rest;
    Hex4AtPrefix(n, rest);
  }

  lemma ParsePairOf(hi: nat, lo: nat, rest: string)
    requires 0xD800 <= hi < 0xDC00 && 0xDC00 <= lo < 0xE000
    ensures ParseUnicodeEscape(Hex4(hi) + (UnicodeEscape(lo) + rest))
        == Some(((0x10000 + (hi - 0xD800) * 0x400 + (lo - 0xDC00)) as char, rest))
  {
    var t := UnicodeEscape(lo) + rest;
    Hex4AtPrefix(hi, t);
    assert t[0] == '\\' && t[1] == 'u';
    assert t[2..] == Hex4(lo) + rest;
    Hex4AtPrefix(lo, rest);
    ParsePairAt(Hex4(hi) + t, t, Hex4(lo) + rest, hi, lo, rest);
  }

  /** Four digits of a high surrogate, a backslash, a 'u' and four digits of a low one read as their pair. */
  lemma ParsePairAt(s: string, t: string, u: string, hi: nat, lo: nat, rest: string)
    requires 0xD800 <= hi < 0xDC00 && 0xDC00 <= lo < 0xE000
    requires Hex4At(s) == Some(hi) && |s| >= 4 && s[4..] == t
    requires |t| >= 2 && t[0] == '\\' && t[1] == 'u' && t[2..] == u
    requires Hex4At(u) == Some(lo) && |u| >= 4 && u[4..] == rest
    ensures ParseUnicodeEscape(s) == Some(((0x10000 + (hi - 0xD800) * 0x400 + (lo - 0xDC00)) as char, rest))
  {
    assert t[6..] == rest;
  }

  lemma ParseSurrogateEscapeOf(c: char, rest: string)
    requires c as int >= 0x10000
    ensures ParseChar(UnicodeEscape(HighSurrogate(c)) + UnicodeEscape(LowSurrogate(c)) + rest) == Some((c, rest))
  {
    var hi, lo := HighSurrogate(c), LowSurrogate(c);
    var t := UnicodeEscape(lo) + rest;
    assert UnicodeEscape(hi) + UnicodeEscape(lo) + rest == "\\u" + (Hex4(hi) + t);
    ParseCharOfU(Hex4(hi) + t);
    ParsePairOf(hi, lo, rest);
    SurrogatePair(c);
  }

  /** A backslash and a 'u' hand what follows them to the reading of a unicode escape. */
  lemma ParseCharOfU(x: string)
    ensures ParseChar("\\u" + x) == ParseUnicodeEscape(x)
  {
    var s := "\\u" + x;
    assert s[0] == '\\' && s[1..][0] == 'u';
    assert s[1..][1..] == x;
  }

  lemma ParseEscapeChar(c: char, rest: string)
    ensures ParseChar(EscapeChar(c) + rest) == Some((c, rest))
  {
    if HasShortEscape(c) {
      ParseShortEscape(c, rest);
    } else if c as int < 0x20 || 0x80 <= c as int < 0x10000 {
      ParseUnicodeEscapeOf(c as int, rest);
    } else if c as int < 0x80 {
      assert (EscapeChar(c) + rest)[1..] == rest;
    } else {
      ParseSurrogateEscapeOf(c, rest);
    }
  }

  lemma EscapeCharNotQuote(c: char)
    ensures |EscapeChar(c)| > 0 && EscapeChar(c)[0] != '"'
  {
  }

  lemma StringStep(x: string, c: char, t: string, u: string, rest: string)
    requires x != [] && x[0] != '"'
    requires ParseChar(x) == Some((c, t)) && ParseString(t) == Some((u, rest))
    ensures ParseString(x) == Some(([c] + u, rest))
  {
  }

  lemma EscapeUnfold(s: string, rest: string)
    requires s != []
    ensures Escape(s) + "\"" + rest == EscapeChar(s[0]) + (Escape(s[1..]) + "\"" + rest)
  {
  }

  lemma {:induction false} ParseEscaped(s: string, rest: string)
    ensures ParseString(Escape(s) + "\"" + rest) == Some((s, rest))
  {
    if s == [] {
      assert Escape(s) + "\"" + rest == "\"" + rest;
    } else {
      var tail := Escape(s[1..]) + "\"" + rest;
      var x := EscapeChar(s[0]) + tail;
      EscapeUnfold(s, rest);
      EscapeCharNotQuote(s[0]);
      assert x[0] == EscapeChar(s[0])[0];
      ParseEscapeChar(s[0], tail);
      ParseEscaped(s[1..], rest);
      StringStep(x, s[0], tail, s[1..], rest);
      assert [s[0]] + s[1..] == s;
    }
  }

  /** What may follow an encoded value: anything that cannot continue a number. */
  predicate CanFollow(rest: string) { rest == [] || !IsDigit(rest[0]) }

  lemma DigitRunOf(d: string, rest: string)
    requires AllDigits(d) && CanFollow(rest)
    ensures DigitRun(d + rest) == |d|
    ensures (d + rest)[..|d|] == d && (d + rest)[|d|..] == rest
  {
    if d != [] {
      assert (d + rest)[1..] == d[1..] + rest;
      DigitRunOf(d[1..], rest);
    }
  }

  lemma ParseDigitsText(d: string, n: nat, rest: string)
    requires d == NatText(n) && CanFollow(rest)
    ensures ParseNumber(d + rest) == Some((Int(n), rest))
  {
    var t := d + rest;
    assert t[0] == d[0] && IsDigit(t[0]);
    DigitRunOf(d, rest);
    DecimalOfNatText(n);
  }

  lemma ParseNegativeText(d: string, n: nat, rest: string)
    requires d == NatText(n) && CanFollow(rest)
    ensures ParseNumber("-" + d + rest) == Some((Int(-(n as int)), rest))
  {
    var s := "-" + d + rest;
    var t := d + rest;
    assert s[0] == '-' && s[1..] == t;
    assert t[0] == d[0];
    DigitRunOf(d, rest);
    DecimalOfNatText(n);
  }

  lemma ParseIntText(i: int, rest: string)
    requires CanFollow(rest)
    ensures ParseNumber(IntText(i) + rest) == Some((Int(i), rest))
  {
    if i < 0 {
      ParseNegativeText(NatText(-i), -i, rest);
    } else {
      ParseDigitsText(NatText(i), i, rest);
    }
  }

  lemma NoWsAhead(s: string)
    requires s != [] && !IsWs(s[0])
    ensures SkipWs(s) == s
  {
  }

  lemma ParseEncodedLiteral(v: Json, rest: string)
    requires v.Null? || v.Bool?
    ensures ParseValue(Encode(v) + rest) == Some((v, rest))
  {
    var s := Encode(v) + rest;
    NoWsAhead(s);
    assert ParseValue(s) == ParseLiteral(s);
    if v.Null? {
      assert s[..4] == "null" && s[4..] == rest;
    } else if v.b {
      assert s[..4] == "true" && s[4..] == rest;
    } else {
      assert s[..5] == "false" && s[5..] == rest;
    }
  }

  lemma ParseEncodedInt(i: int, rest: string)
    requires CanFollow(rest)
    ensures ParseValue(IntText(i) + rest) == Some((Int(i), rest))
  {
    var s := IntText(i) + rest;
    EncodeStartsToken(Int(i));
    NoWsAhead(s);
    ParseIntText(i, rest);
  }

  lemma ParseEncodedStr(str: string, rest: string)
    ensures ParseValue(Quote(str) + rest) == Some((Str(str), rest))
  {
    var s := Quote(str) + rest;
    NoWsAhead(s);
    assert s[1..] == Escape(str) + "\"" + rest;
    ParseEscaped(str, rest);
  }

  // One step of the decoder each, so that the round trip below chains small facts.

  lemma ValueEmptyArrStep(x: string, rest: string)
    requires x == "]" + rest
    ensures ParseValue("[" + x) == Some((Arr([]), rest))
  {
    var s := "[" + x;
    NoWsAhead(s);
    assert s[1..] == x;
    NoWsAhead(x);
  }

  lemma ValueArrStep(x: string, a: seq<Json>, rest: string)
    requires x != [] && !IsWs(x[0]) && x[0] != ']'
    requires ParseElems(x) == Some((a, rest))
    ensures ParseValue("[" + x) == Some((Arr(a), rest))
  {
    var s := "[" + x;
    NoWsAhead(s);
    assert s[1..] == x;
    NoWsAhead(x);
  }

  lemma ValueEmptyObjStep(x: string, rest: string)
    requires x == "}" + rest
    ensures ParseValue("{" + x) == Some((Obj([]), rest))
  {
    var s := "{" + x;
    NoWsAhead(s);
    assert s[1..] == x;
    NoWsAhead(x);
  }

  lemma ObjectStep(x: string, m: seq<Member>, rest: string)
    requires x != [] && !IsWs(x[0]) && x[0] != '}'
    requires ParseMembers(x) == Some((m, rest))
    ensures ParseObject(x) == Some((Obj(m), rest))
  {
    NoWsAhead(x);
  }

  lemma ValueObjDispatch(x: string)
    ensures ParseValue("{" + x) == ParseObject(x)
  {
    var s := "{" + x;
    NoWsAhead(s);
    assert s[1..] == x;
  }

  lemma ElemsLastStep(s: string, v: Json, rest: string)
    requires ParseValue(s) == Some((v, "]" + rest))
    ensures ParseElems(s) == Some(([v], rest))
  {
    NoWsAhead("]" + rest);
    assert ("]" + rest)[1..] == rest;
  }

  lemma ElemsMoreStep(s: string, v: Json, tail: string, vs: seq<Json>, rest: string)
    requires ParseValue(s) == Some((v, "," + tail))
    requires ParseElems(tail) == Some((vs, rest))
    ensures ParseElems(s) == Some(([v] + vs, rest))
  {
    NoWsAhead("," + tail);
    assert ("," + tail)[1..] == tail;
  }

  /** The start of a member: its quoted key and colon, then the value, then what follows. */
  lemma MemberHead(key: string, y: string)
    ensures var s := Quote(key) + ":" + y;
      && s != [] && s[0] == '"' && SkipWs(s) == s
      && ParseString(s[1..]) == Some((key, ":" + y))
  {
    var colon := ":" + y;
    var s := Quote(key) + ":" + y;
    assert s == "\"" + (Escape(key) + "\"" + colon);
    NoWsAhead(s);
    assert s[1..] == Escape(key) + "\"" + colon;
    ParseEscaped(key, colon);
  }

  lemma MembersLastStep(s: string, key: string, y: string, v: Json, rest: string)
    requires s != [] && s[0] == '"' && SkipWs(s) == s
    requires ParseString(s[1..]) == Some((key, ":" + y))
    requires ParseValue(y) == Some((v, "}" + rest))
    ensures ParseMembers(s) == Some(([Member(key, v)], rest))
  {
    NoWsAhead(":" + y);
    assert (":" + y)[1..] == y;
    NoWsAhead("}" + rest);
    assert ("}" + rest)[1..] == rest;
  }

  lemma MembersMoreStep(s: string, key: string, y: string, v: Json, tail: string, ms: seq<Member>, rest: string)
    requires s != [] && s[0] == '"' && SkipWs(s) == s
    requires ParseString(s[1..]) == Some((key, ":" + y))
    requires ParseValue(y) == Some((v, "," + tail))
    requires ParseMembers(tail) == Some((ms, rest))
    ensures ParseMembers(s) == Some(([Member(key, v)] + ms, rest))
  {
    NoWsAhead(":" + y);
    assert (":" + y)[1..] == y;
    NoWsAhead("," + tail);
    assert ("," + tail)[1..] == tail;
  }

  /** A non-empty member list is its first member, rebuilt from its parts, before the rest. */
  lemma MembersCons(m: seq<Member>)
    requires |m| > 0
    ensures [Member(m[0].key, m[0].value)] + m[1..] == m
  {
  }

  lemma {:induction false} ParseEncodedArr(a: seq<Json>, rest: string)
    ensures ParseValue("[" + EncodeElems(a) + "]" + rest) == Some((Arr(a), rest))
    decreases a, 1
  {
    var x := EncodeElems(a) + "]" + rest;
    assert "[" + EncodeElems(a) + "]" + rest == "[" + x;
    if a == [] {
      assert x == "]" + rest;
      ValueEmptyArrStep(x, rest);
    } else {
      EncodeStartsToken(a[0]);
      assert x[0] == Encode(a[0])[0];
      ParseEncodedElems(a, rest);
      ValueArrStep(x, a, rest);
    }
  }

  lemma {:induction false} ParseEncodedObj(m: seq<Member>, rest: string)
    ensures ParseValue("{" + EncodeMembers(m) + "}" + rest) == Some((Obj(m), rest))
    decreases m, 1
  {
    var x := EncodeMembers(m) + "}" + rest;
    assert "{" + EncodeMembers(m) + "}" + rest == "{" + x;
    if m == [] {
      assert x == "}" + rest;
      ValueEmptyObjStep(x, rest);
    } else {
      assert x[0] == '"';
      ParseEncodedMembers(m, rest);
      ObjectStep(x, m, rest);
      ValueObjDispatch(x);
    }
  }

  /** Decode(Encode(v)) == v, stated for an encoded value followed by more text. */
  lemma {:induction false} ParseEncoded(v: Json, rest: string)
    requires CanFollow(rest)
    ensures ParseValue(Encode(v) + rest) == Some((v, rest))
    decreases v, 2
  {
    match v
    case Null => ParseEncodedLiteral(v, rest);
    case Bool(_) => ParseEncodedLiteral(v, rest);
    case Int(i) => ParseEncodedInt(i, rest);
    case Str(str) => ParseEncodedStr(str, rest);
    case Arr(a) => ParseEncodedArr(a, rest);
    case Obj(m) => ParseEncodedObj(m, rest);
  }

  lemma {:induction false} ParseEncodedElems(a: seq<Json>, rest: string)
    requires |a| > 0
    ensures ParseElems(EncodeElems(a) + "]" + rest) == Some((a, rest))
    decreases a, 0
  {
    var s := EncodeElems(a) + "]" + rest;
    if |a| == 1 {
      assert s == Encode(a[0]) + ("]" + rest);
      ParseEncoded(a[0], "]" + rest);
      ElemsLastStep(s, a[0], rest);
      assert [a[0]] == a;
    } else {
      var tail := EncodeElems(a[1..]) + "]" + rest;
      assert s == Encode(a[0]) + ("," + tail);
      ParseEncoded(a[0], "," + tail);
      ParseEncodedElems(a[1..], rest);
      ElemsMoreStep(s, a[0], tail, a[1..], rest);
      assert [a[0]] + a[1..] == a;
    }
  }

  lemma Assoc(a: string, b: string, c: string)
    ensures a + b + c == a + (b + c)
  {
  }

  lemma MembersUnfold(m: seq<Member>, rest: string)
    requires |m| > 0
    ensures |m| == 1 ==> EncodeMembers(m) + "}" + rest == Quote(m[0].key) + ":" + (Encode(m[0].value) + ("}" + rest))
    ensures |m| > 1 ==>
      EncodeMembers(m) + "}" + rest == Quote(m[0].key) + ":" + (Encode(m[0].value) + ("," + (EncodeMembers(m[1..]) + "}" + rest)))
  {
    var h := Quote(m[0].key) + ":";
    var e := Encode(m[0].value);
    if |m| == 1 {
      assert EncodeMembers(m) == h + e;
      Assoc(h, e, "}");
      Assoc(h, e + "}", rest);
      Assoc(e, "}", rest);
    } else {
      var t := EncodeMembers(m[1..]);
      assert EncodeMembers(m) == h + e + "," + t;
      Assoc(h + e + ",", t, "}");
      Assoc(h + e + ",", t + "}", rest);
      Assoc(h + e, ",", t + "}" + rest);
      Assoc(h, e, "," + (t + "}" + rest));
      Assoc(t, "}", rest);
    }
  }

  lemma {:induction false} ParseEncodedMembers(m: seq<Member>, rest: string)
    requires |m| > 0
    ensures ParseMembers(EncodeMembers(m) + "}" + rest) == Some((m, rest))
    decreases m, 0
  {
    var s := EncodeMembers(m) + "}" + rest;
    var key, v := m[0].key, m[0].value;
    MembersUnfold(m, rest);
    if |m| == 1 {
      var y := Encode(v) + ("}" + rest);
      assert ParseValue(y) == Some((v, "}" + rest)) by {
        ParseEncoded(v, "}" + rest);
      }
      MemberHead(key, y);
      MembersLastStep(s, key, y, v, rest);
      assert [Member(key, v)] == m;
    } else {
      var tail := EncodeMembers(m[1..]) + "}" + rest;
      var y := Encode(v) + ("," + tail);
      assert ParseValue(y) == Some((v, "," + tail)) by {
        ParseEncoded(v, "," + tail);
      }
      MemberHead(key, y);
      assert ParseMembers(tail) == Some((m[1..], rest)) by {
        ParseEncodedMembers(m[1..], rest);
      }
      MembersMoreStep(s, key, y, v, tail, m[1..], rest);
      MembersCons(m);
    }
  }

  /** Decoding the encoding of any value gives the value back. */
  lemma DecodeEncode(v: Json)
    ensures Decode(Encode(v)) == Some(v)
  {
    ParseEncoded(v, []);
    assert Encode(v) + [] == Encode(v);
  }
}
