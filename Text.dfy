/**
 * Text primitives the client relies on, written as PHP's library functions
 * behave on them: decimal rendering of integers (string interpolation and
 * implode), PHP's hexdec, PHP's trim, and strpos/explode on one character.
 */
module Text {
  import opened Wrappers

  // ---------------------------------------------------------------------
  // Decimal digits

  predicate IsDigit(c: char) { '0' <= c <= '9' }

  predicate AllDigits(s: string) { forall i :: 0 <= i < |s| ==> IsDigit(s[i]) }

  function DigitChar(d: nat): (c: char)
    requires d < 10
    ensures IsDigit(c) && c as int - '0' as int == d
  {
    ['0', '1', '2', '3', '4', '5', '6', '7', '8', '9'][d]
  }

  function DigitValue(c: char): nat
    requires IsDigit(c)
  {
    c as int - '0' as int
  }

  /** The decimal text of a natural number, without sign or leading zeros. */
  function NatText(n: nat): (s: string)
    ensures |s| > 0 && AllDigits(s)
    ensures s[0] == '0' ==> n == 0 && s == "0"
  {
    if n < 10 then [DigitChar(n)] else NatText(n / 10) + [DigitChar(n % 10)]
  }

  /** The value of a string of decimal digits (0 for the empty string). */
  function DecimalValue(s: string): nat
    requires AllDigits(s)
  {
    if s == [] then 0 else DecimalValue(s[..|s| - 1]) * 10 + DigitValue(s[|s| - 1])
  }

  lemma {:induction false} DecimalOfNatText(n: nat)
    ensures DecimalValue(NatText(n)) == n
  {
    if n >= 10 {
      var s := NatText(n);
      assert s[..|s| - 1] == NatText(n / 10);
      DecimalOfNatText(n / 10);
    }
  }

  /** The decimal text of an integer, with a leading '-' when negative (PHP's (string) cast). */
  function IntText(i: int): string
  {
    if i < 0 then "-" + NatText(-i) else NatText(i)
  }

  /**
   * Reads an integer written as an optional '-' followed by one or more
   * digits; anything else is rejected.
   */
  function ParseInt(s: string): Option<int>
  {
    if |s| > 0 && s[0] == '-' then
      if |s| > 1 && AllDigits(s[1..]) then Some(-(DecimalValue(s[1..]) as int)) else None
    else if |s| > 0 && AllDigits(s) then Some(DecimalValue(s))
    else None
  }

  lemma ParseIntOfIntText(i: int)
    ensures ParseInt(IntText(i)) == Some(i)
  {
    if i < 0 {
      var n: nat := -i;
      assert IntText(i) == "-" + NatText(n);
      ParseNegativeText(n);
      assert i == -(n as int);
    } else {
      var n: nat := i;
      assert IntText(i) == NatText(n);
      ParseNatText(n);
    }
  }

  lemma ParseNatText(n: nat)
    ensures ParseInt(NatText(n)) == Some(n)
  {
    var t := NatText(n);
    DecimalOfNatText(n);
    ParseDigits(t);
  }

  lemma ParseNegativeText(n: nat)
    ensures ParseInt("-" + NatText(n)) == Some(-(n as int))
  {
    var t := NatText(n);
    DecimalOfNatText(n);
    ParseNegative(t);
  }

  /** A minus sign followed by digits reads as the negated value of the digits. */
  lemma ParseNegative(t: string)
    requires |t| > 0 && AllDigits(t)
    ensures ParseInt("-" + t) == Some(-(DecimalValue(t) as int))
  {
    assert ("-" + t)[1..] == t;
  }

  /** Digits alone read as their value. */
  lemma ParseDigits(t: string)
    requires |t| > 0 && AllDigits(t)
    ensures ParseInt(t) == Some(DecimalValue(t))
  {
    assert IsDigit(t[0]);
  }

  lemma IntTextHasNoOtherChars(i: int)
    ensures forall k :: 0 <= k < |IntText(i)| ==> IsDigit(IntText(i)[k]) || IntText(i)[k] == '-'
  {
  }

  // ---------------------------------------------------------------------
  // Hexadecimal

  predicate IsHexDigit(c: char) { '0' <= c <= '9' || 'a' <= c <= 'f' || 'A' <= c <= 'F' }

  function HexValue(c: char): (d: nat)
    requires IsHexDigit(c)
    ensures d < 16
  {
    if '0' <= c <= '9' then c as int - '0' as int
    else if 'a' <= c <= 'f' then c as int - 'a' as int + 10
    else c as int - 'A' as int + 10
  }

  function HexChar(d: nat): (c: char)
    requires d < 16
    ensures IsHexDigit(c) && HexValue(c) == d
  {
    "0123456789abcdef"[d]
  }

  /**
   * PHP's hexdec: the value of the hexadecimal digits of s, read in order,
   * with every character that is not a hexadecimal digit ignored. So the
   * "x" of a "0x" prefix, and any blank, contribute nothing.
   */
  function HexDec(s: string): nat
  {
    if s == [] then 0
    else if IsHexDigit(s[|s| - 1]) then HexDec(s[..|s| - 1]) * 16 + HexValue(s[|s| - 1])
    else HexDec(s[..|s| - 1])
  }

  /** The lower-case hexadecimal text of a natural number, without prefix. */
  function HexText(n: nat): (s: string)
    ensures |s| > 0 && forall i :: 0 <= i < |s| ==> IsHexDigit(s[i])
  {
    if n < 16 then [HexChar(n)] else HexText(n / 16) + [HexChar(n % 16)]
  }

  lemma {:induction false} HexDecOfHexText(n: nat)
    ensures HexDec(HexText(n)) == n
  {
    if n >= 16 {
      var s := HexText(n);
      assert s[..|s| - 1] == HexText(n / 16);
      HexDecOfHexText(n / 16);
    }
  }

  /** A prefix whose digits are all zero (such as "0x") does not change hexdec. */
  lemma {:induction false} HexDecZeroPrefix(p: string, t: string)
    requires HexDec(p) == 0
    ensures HexDec(p + t) == HexDec(t)
  {
    if t == [] {
      assert p + t == p;
    } else {
      var t' := t[..|t| - 1];
      assert (p + t)[..|p + t| - 1] == p + t';
      assert (p + t)[|p + t| - 1] == t[|t| - 1];
      HexDecZeroPrefix(p, t');
    }
  }

  /** An identifier written as "0x" plus hex digits denotes the number those digits spell. */
  lemma PrefixedHexText(n: nat)
    ensures HexDec("0x" + HexText(n)) == n
  {
    assert HexDec("0x") == 0 by {
      assert "0x"[..1] == "0";
      assert "0"[..0] == "";
    }
    HexDecZeroPrefix("0x", HexText(n));
    HexDecOfHexText(n);
  }

  /** A text whose hexadecimal digits are all '0' (such as "0x0" or " 0x0000000000000000") has hexdec 0. */
  lemma {:induction false} HexDecOfZeros(s: string)
    requires forall i :: 0 <= i < |s| ==> !IsHexDigit(s[i]) || s[i] == '0'
    ensures HexDec(s) == 0
  {
    if s != [] {
      HexDecOfZeros(s[..|s| - 1]);
    }
  }

  // ---------------------------------------------------------------------
  // PHP's trim: strips " ", "\t", "\n", "\r", "\0" and "\x0B" at both ends

  predicate IsTrimmable(c: char)
  {
    c == ' ' || c == '\t' || c == '\n' || c == '\r' || c == '\0' || c as int == 0x0B
  }

  predicate AllTrimmable(s: string) { forall i :: 0 <= i < |s| ==> IsTrimmable(s[i]) }

  /** No trimmable character at either end. */
  predicate IsTrimmed(s: string)
  {
    s == [] || (!IsTrimmable(s[0]) && !IsTrimmable(s[|s| - 1]))
  }

  /** The number of trimmable characters at the start of s. */
  function LeadLength(s: string): (k: nat)
    ensures k <= |s| && AllTrimmable(s[..k])
    ensures k == |s| || !IsTrimmable(s[k])
  {
    if s != [] && IsTrimmable(s[0]) then
      var k := LeadLength(s[1..]);
      assert s[..k + 1] == [s[0]] + s[1..][..k];
      k + 1
    else 0
  }

  /** The position where the trimmable characters at the end of s begin. */
  function TailStart(s: string): (j: nat)
    ensures j <= |s| && AllTrimmable(s[j..])
    ensures j == 0 || !IsTrimmable(s[j - 1])
  {
    if s != [] && IsTrimmable(s[|s| - 1]) then
      var j := TailStart(s[..|s| - 1]);
      assert s[j..] == s[..|s| - 1][j..] + [s[|s| - 1]];
      j
    else |s|
  }

  function TrimLeft(s: string): (r: string)
  {
    s[LeadLength(s)..]
  }

  function TrimRight(s: string): (r: string)
  {
    s[..TailStart(s)]
  }

  /**
   * PHP's trim. The result is the middle of s, with only trimmable characters
   * cut from either end, and has no trimmable character at either end.
   */
  function Trim(s: string): (r: string)
    ensures IsTrimmed(r)
    ensures exists i, j :: 0 <= i <= j <= |s| && r == s[i..j] && AllTrimmable(s[..i]) && AllTrimmable(s[j..])
  {
    var i := LeadLength(s);
    var l := s[i..];
    var j := TailStart(l);
    assert l[..j] == s[i..i + j];
    assert s[i + j..] == l[j..];
    l[..j]
  }

  lemma {:induction false} TrimLeftPadded(pad: string, t: string)
    requires AllTrimmable(pad)
    requires t == [] || !IsTrimmable(t[0])
    ensures TrimLeft(pad + t) == t
  {
    if pad == [] {
      assert pad + t == t;
    } else {
      assert (pad + t)[1..] == pad[1..] + t;
      TrimLeftPadded(pad[1..], t);
    }
  }

  lemma {:induction false} TrimRightPadded(t: string, pad: string)
    requires AllTrimmable(pad)
    requires t == [] || !IsTrimmable(t[|t| - 1])
    ensures TrimRight(t + pad) == t
  {
    if pad == [] {
      assert t + pad == t;
    } else {
      assert (t + pad)[..|t + pad| - 1] == t + pad[..|pad| - 1];
      TrimRightPadded(t, pad[..|pad| - 1]);
    }
  }

  /** Trimming a text padded on both sides with trimmable characters gives the text back. */
  lemma TrimPadded(pre: string, t: string, post: string)
    requires AllTrimmable(pre) && AllTrimmable(post) && IsTrimmed(t)
    ensures Trim(pre + t + post) == t
  {
    assert pre + t + post == pre + (t + post);
    if t == [] {
      assert t + post == post;
      TrimLeftPadded(pre + post, []);
      assert pre + post + [] == pre + post;
      assert AllTrimmable(pre + post);
      TrimRightPadded([], []);
    } else {
      TrimLeftPadded(pre, t + post);
      TrimRightPadded(t, post);
    }
  }

  // ---------------------------------------------------------------------
  // strpos and explode on a single character

  /** The position of the first occurrence of c in s, if any. */
  function IndexOf(s: string, c: char): (r: Option<nat>)
    ensures r.None? <==> c !in s
    ensures r.Some? ==> r.value < |s| && s[r.value] == c && c !in s[..r.value]
  {
    if s == [] then None
    else if s[0] == c then Some(0)
    else
      match IndexOf(s[1..], c)
      case None => None
      case Some(i) =>
        assert s[..i + 1] == [s[0]] + s[1..][..i];
        Some(i + 1)
  }

  /** PHP's explode: the pieces of s between occurrences of sep (always at least one piece). */
  function Split(s: string, sep: char): (parts: seq<string>)
    ensures |parts| >= 1
    ensures forall k :: 0 <= k < |parts| ==> sep !in parts[k]
    decreases |s|
  {
    match IndexOf(s, sep)
    case None => [s]
    case Some(i) => [s[..i]] + Split(s[i + 1..], sep)
  }

  /** PHP's implode: the pieces joined with sep between consecutive ones. */
  function Join(parts: seq<string>, sep: char): string
  {
    if |parts| == 0 then ""
    else if |parts| == 1 then parts[0]
    else parts[0] + [sep] + Join(parts[1..], sep)
  }

  lemma {:induction false} JoinOfSplit(s: string, sep: char)
    ensures Join(Split(s, sep), sep) == s
    decreases |s|
  {
    match IndexOf(s, sep)
    case None =>
    case Some(i) =>
      var rest := Split(s[i + 1..], sep);
      assert Split(s, sep) == [s[..i]] + rest;
      JoinCons(s[..i], rest, sep);
      JoinOfSplit(s[i + 1..], sep);
      assert s == s[..i] + [sep] + s[i + 1..];
  }

  /** Joining a first piece onto at least one more puts one separator after it. */
  lemma JoinCons(p: string, rest: seq<string>, sep: char)
    requires |rest| >= 1
    ensures Join([p] + rest, sep) == p + [sep] + Join(rest, sep)
  {
    assert ([p] + rest)[1..] == rest;
  }

  /** Joining two non-empty lists of pieces puts one separator between their joins. */
  lemma {:induction false} JoinAppend(a: seq<string>, b: seq<string>, sep: char)
    requires a != [] && b != []
    ensures Join(a + b, sep) == Join(a, sep) + [sep] + Join(b, sep)
  {
    if |a| == 1 {
      assert (a + b)[1..] == b;
    } else {
      assert (a + b)[1..] == a[1..] + b;
      JoinAppend(a[1..], b, sep);
    }
  }

  lemma {:induction false} SplitOfJoin(parts: seq<string>, sep: char)
    requires |parts| >= 1
    requires forall k :: 0 <= k < |parts| ==> sep !in parts[k]
    ensures Split(Join(parts, sep), sep) == parts
  {
    if |parts| > 1 {
      var p, more := parts[0], Join(parts[1..], sep);
      var s := p + ([sep] + more);
      assert Join(parts, sep) == s;
      IndexOfAfter(p, sep, more);
      assert s[..|p|] == p && s[|p| + 1..] == more;
      SplitAt(s, sep, |p|);
      SplitOfJoin(parts[1..], sep);
      assert [p] + parts[1..] == parts;
    }
  }

  /** At the first separator, explode takes the piece before it and goes on after it. */
  lemma SplitAt(s: string, sep: char, i: nat)
    requires IndexOf(s, sep) == Some(i)
    ensures Split(s, sep) == [s[..i]] + Split(s[i + 1..], sep)
  {
  }

  /** When p does not contain c, the first c of p + [c] + rest is the one right after p. */
  lemma IndexOfAfter(p: string, c: char, rest: string)
    requires c !in p
    ensures IndexOf(p + ([c] + rest), c) == Some(|p|)
  {
    var s := p + ([c] + rest);
    assert s[..|p|] == p;
    assert s[|p|] == c;
  }
}
