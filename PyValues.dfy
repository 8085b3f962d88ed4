/// Python values as the views see them: JSON-shaped response fields and
/// session entries, the truth test behind `if not x`, the conversions
/// `int(x)` and `str(n)`, and the UTF-8 encoding behind `str.encode("utf-8")`
/// (used for the HMAC key and message and inside `urllib.parse.quote`).
module PyValues {

  datatype Option<+T> = None | Some(value: T)

  type byte = x: int | 0 <= x < 256

  /** A JSON-shaped Python value: what a decoded response field or a session entry holds. */
  datatype Json =
    | JNull
    | JBool(b: bool)
    | JInt(i: int)
    | JStr(s: string)
    | JArray(items: seq<Json>)
    | JObject(fields: map<string, Json>)

  /** The exceptions the modelled code can let escape or catch; `OtherError` is
      any other class, such as a transport failure inside a remote client. */
  datatype Exception = ValueError | TypeError | AttributeError | KeyError | OtherError

  /** Python's truth test, as used by `if not x` and `all(...)`. */
  predicate Truthy(v: Json) {
    match v
    case JNull => false
    case JBool(b) => b
    case JInt(i) => i != 0
    case JStr(s) => s != ""
    case JArray(items) => items != []
    case JObject(fields) => fields != map[]
  }

  /** `d.get(k)`: the value under `k`, or None (JNull) when the key is absent. */
  function Get(d: map<string, Json>, k: string): (v: Json)
    ensures k !in d ==> !Truthy(v)
  {
    if k in d then d[k] else JNull
  }

  // ---------------------------------------------------------------------
  // str(n) for integers
  // ---------------------------------------------------------------------

  predicate IsDigit(c: char) { '0' <= c <= '9' }

  function DigitChar(d: nat): (c: char)
    requires d < 10
    ensures IsDigit(c) && DigitValue(c) == d
  {
    ('0' as int + d) as char
  }

  function DigitValue(c: char): nat
    requires IsDigit(c)
  {
    (c as int) - ('0' as int)
  }

  /** Decimal digits of a natural number, most significant first, no leading zero. */
  function NatToStr(n: nat): (r: string)
    ensures |r| > 0
    ensures forall i :: 0 <= i < |r| ==> IsDigit(r[i])
    ensures r[0] == '0' ==> n == 0
  {
    if n < 10 then [DigitChar(n)] else NatToStr(n / 10) + [DigitChar(n % 10)]
  }

  /** `str(n)`: a minus sign exactly for negative numbers, then the decimal digits. */
  function IntToStr(n: int): (r: string)
    ensures |r| > 0 && (r[0] == '-' <==> n < 0)
    ensures forall i :: (if n < 0 then 1 else 0) <= i < |r| ==> IsDigit(r[i])
    // no leading zero: "0" is the only numeral that starts with one
    ensures r[0] == '0' ==> n == 0 && r == "0"
    ensures n < 0 ==> |r| > 1 && r[1] != '0'
  {
    if n < 0 then "-" + NatToStr(-n) else NatToStr(n)
  }

  // ---------------------------------------------------------------------
  // int(x)
  // ---------------------------------------------------------------------

  /** The ASCII whitespace that `int()` strips around a numeral: space, `\t`,
      `\n`, `\v`, `\f`, `\r` and the separators `\x1c` to `\x1f`. */
  predicate IsSpace(c: char) {
    c == ' ' || ('\t' <= c <= '\r') || ('\U{1C}' <= c <= '\U{1F}')
  }

  function TrimStart(s: string): (r: string)
    ensures r != [] ==> !IsSpace(r[0])
  {
    if |s| > 0 && IsSpace(s[0]) then TrimStart(s[1..]) else s
  }

  function TrimEnd(s: string): (r: string)
    ensures r != [] ==> !IsSpace(r[|r| - 1])
  {
    if |s| > 0 && IsSpace(s[|s| - 1]) then TrimEnd(s[..|s| - 1]) else s
  }

  /** The value of a digit string in which single underscores may separate digits
      (`digit ("_"? digit)*`), or None when the string is not of that form. */
  function DigitsValue(s: string): Option<nat>
    decreases |s|
  {
    if |s| == 0 || !IsDigit(s[|s| - 1]) then None
    else if |s| == 1 then Some(DigitValue(s[0]))
    else
      var front := s[..|s| - 1];
      var lead := if front[|front| - 1] == '_' then front[..|front| - 1] else front;
      match DigitsValue(lead)
      case Some(v) => Some(10 * v + DigitValue(s[|s| - 1]))
      case None => None
  }

  /** `int(s)` for a string in base 10: surrounding whitespace, an optional sign,
      then digits; None stands for the ValueError raised on anything else. */
  function ParseInt(s: string): (r: Option<int>)
    ensures r.Some? ==> exists i :: 0 <= i < |s| && IsDigit(s[i])
  {
    var t := TrimEnd(TrimStart(s));
    var r := ParseSigned(t);
    if r.Some? then
      TrimKeepsCharacters(s);
      assert t[|t| - 1] in t;
      r
    else r
  }

  lemma TrimKeepsCharacters(s: string)
    ensures forall c :: c in TrimEnd(TrimStart(s)) ==> c in s
  {
    TrimStartKeepsCharacters(s);
    TrimEndKeepsCharacters(TrimStart(s));
  }

  lemma TrimStartKeepsCharacters(s: string)
    ensures forall c :: c in TrimStart(s) ==> c in s
  {
    if |s| > 0 && IsSpace(s[0]) {
      TrimStartKeepsCharacters(s[1..]);
    }
  }

  lemma TrimEndKeepsCharacters(s: string)
    ensures forall c :: c in TrimEnd(s) ==> c in s
  {
    if |s| > 0 && IsSpace(s[|s| - 1]) {
      TrimEndKeepsCharacters(s[..|s| - 1]);
    }
  }

  /** Whitespace after an all-space prefix disappears, otherwise it stays at the end. */
  lemma {:induction false} TrimStartAppendSpace(s: string, c: char)
    requires IsSpace(c)
    ensures TrimStart(s + [c]) == if TrimStart(s) == [] then [] else TrimStart(s) + [c]
  {
    if s == [] {
      assert TrimStart([c]) == TrimStart([c][1..]);
    } else if IsSpace(s[0]) {
      assert (s + [c])[1..] == s[1..] + [c];
      TrimStartAppendSpace(s[1..], c);
    }
  }

  /** `int()` ignores whitespace around the numeral: one more space at either end changes nothing. */
  lemma ParseIntIgnoresSpace(s: string, c: char)
    requires IsSpace(c)
    ensures ParseInt([c] + s) == ParseInt(s)
    ensures ParseInt(s + [c]) == ParseInt(s)
  {
    assert ([c] + s)[1..] == s;
    TrimStartAppendSpace(s, c);
    var t := TrimStart(s);
    if t != [] {
      assert (t + [c])[..|t|] == t;
    }
  }

  /** An optional sign, then digits: what `int()` accepts once the whitespace is gone. */
  function ParseSigned(t: string): (r: Option<int>)
    ensures r.Some? ==> |t| > 0 && IsDigit(t[|t| - 1])
  {
    if |t| > 0 && (t[0] == '+' || t[0] == '-') then
      match DigitsValue(t[1..])
      case Some(v) => var n: int := v; Some(if t[0] == '-' then -n else n)
      case None => None
    else
      match DigitsValue(t)
      case Some(v) => Some(v as int)
      case None => None
  }

  datatype IntConversion = Converted(value: int) | Raised(error: Exception)

  /** `int(v)`: integers pass, booleans become 0 or 1, strings are parsed
      (ValueError when malformed), None, lists and dicts raise TypeError. */
  function ToInt(v: Json): (r: IntConversion)
    ensures r.Raised? ==> r.error == ValueError || r.error == TypeError
    ensures r == Raised(TypeError) <==> v.JNull? || v.JArray? || v.JObject?
  {
    match v
    case JInt(i) => Converted(i)
    case JBool(b) => Converted(if b then 1 else 0)
    case JStr(s) =>
      (match ParseInt(s)
       case Some(n) => Converted(n)
       case None => Raised(ValueError))
    case _ => Raised(TypeError)
  }

  lemma {:induction false} DigitsValueOfNatToStr(n: nat)
    ensures DigitsValue(NatToStr(n)) == Some(n)
  {
    var s := NatToStr(n);
    if n >= 10 {
      var front := s[..|s| - 1];
      assert front == NatToStr(n / 10);
      assert IsDigit(front[|front| - 1]);
      DigitsValueOfNatToStr(n / 10);
    }
  }

  /** A string that neither starts nor ends with whitespace is parsed as it stands. */
  lemma ParseIntOfTrimmed(s: string)
    requires s != [] && !IsSpace(s[0]) && !IsSpace(s[|s| - 1])
    ensures ParseInt(s) == ParseSigned(s)
  {
    assert TrimStart(s) == s;
    assert TrimEnd(s) == s;
  }

  lemma ParseSignedNegative(t: string, v: nat)
    requires |t| > 0 && t[0] == '-' && DigitsValue(t[1..]) == Some(v)
    ensures ParseSigned(t) == Some(-(v as int))
  {
  }

  lemma ParseIntOfNatToStr(m: nat)
    ensures ParseInt(NatToStr(m)) == Some(m)
  {
    var digits := NatToStr(m);
    assert IsDigit(digits[0]) && IsDigit(digits[|digits| - 1]);
    ParseIntOfTrimmed(digits);
    DigitsValueOfNatToStr(m);
  }

  lemma ParseIntOfNegative(m: nat)
    requires m > 0
    ensures ParseInt("-" + NatToStr(m)) == Some(-(m as int))
  {
    var digits := NatToStr(m);
    var s := "-" + digits;
    DigitsValueOfNatToStr(m);
    assert s[1..] == digits;
    ParseSignedNegative(s, m);
    assert IsDigit(digits[|digits| - 1]);
    assert s[|s| - 1] == digits[|digits| - 1];
    ParseIntOfTrimmed(s);
  }

  /** `int(str(n)) == n` for every integer n. */
  lemma IntOfStr(n: int)
    ensures ParseInt(IntToStr(n)) == Some(n)
  {
    if n < 0 {
      var m: nat := -n;
      assert IntToStr(n) == "-" + NatToStr(m);
      ParseIntOfNegative(m);
    } else {
      assert IntToStr(n) == NatToStr(n);
      ParseIntOfNatToStr(n);
    }
  }

  // ---------------------------------------------------------------------
  // UTF-8
  // ---------------------------------------------------------------------

  /** The UTF-8 encoding of one Unicode scalar value (1 to 4 bytes). */
  function Utf8Char(c: char): (r: seq<byte>)
    ensures 1 <= |r| <= 4
    ensures |r| == 1 <==> c as int < 0x80
  {
    var n := c as int;
    if n < 0x80 then [n]
    else if n < 0x800 then [0xC0 + n / 64, 0x80 + n % 64]
    else if n < 0x10000 then [0xE0 + n / 4096, 0x80 + n / 64 % 64, 0x80 + n % 64]
    else [0xF0 + n / 262144, 0x80 + n / 4096 % 64, 0x80 + n / 64 % 64, 0x80 + n % 64]
  }

  /** `s.encode("utf-8")` */
  function Utf8(s: string): (r: seq<byte>)
    ensures |r| >= |s|
  {
    if s == [] then [] else Utf8Char(s[0]) + Utf8(s[1..])
  }

  predicate IsContinuation(b: byte) { 0x80 <= b < 0xC0 }

  /** The number of bytes a lead byte announces, 0 for a byte that cannot start a character. */
  function Utf8Width(lead: byte): nat {
    if lead < 0x80 then 1
    else if lead < 0xC0 then 0
    else if lead < 0xE0 then 2
    else if lead < 0xF0 then 3
    else if lead < 0xF8 then 4
    else 0
  }

  /** A code point that a `char` can hold: not a surrogate, at most 0x10FFFF. */
  predicate IsScalar(n: int) { 0 <= n < 0xD800 || 0xE000 <= n < 0x110000 }

  /** The code point a lead byte and its continuation bytes spell out. */
  function CodePoint(bs: seq<byte>): int
    requires 1 <= |bs| <= 4
  {
    var b0: int := bs[0];
    if |bs| == 1 then b0
    else
      var b1: int := bs[1];
      if |bs| == 2 then (b0 - 0xC0) * 64 + (b1 - 0x80)
      else
        var b2: int := bs[2];
        if |bs| == 3 then (b0 - 0xE0) * 4096 + (b1 - 0x80) * 64 + (b2 - 0x80)
        else
          var b3: int := bs[3];
          (b0 - 0xF0) * 262144 + (b1 - 0x80) * 4096 + (b2 - 0x80) * 64 + (b3 - 0x80)
  }

  /** Strict decoding of the first character of `bs`: the character and its width,
      or None for a malformed, overlong or out-of-range sequence. */
  function DecodeChar(bs: seq<byte>): (r: Option<(char, nat)>)
    ensures r.Some? ==> 1 <= r.value.1 <= |bs|
  {
    if bs == [] then None
    else
      var w := Utf8Width(bs[0]);
      if w == 0 || |bs| < w then None
      else if exists i :: 1 <= i < w && !IsContinuation(bs[i]) then None
      else
        var n := CodePoint(bs[..w]);
        var least: int := if w == 1 then 0 else if w == 2 then 0x80 else if w == 3 then 0x800 else 0x10000;
        if n < least || !IsScalar(n) then None else Some((n as char, w))
  }

  /** `bs.decode("utf-8")` with strict error handling: None when the bytes are not UTF-8. */
  function Utf8Decode(bs: seq<byte>): Option<string>
    decreases |bs|
  {
    if bs == [] then Some("")
    else
      match DecodeChar(bs)
      case None => None
      case Some((c, w)) =>
        match Utf8Decode(bs[w..])
        case None => None
        case Some(rest) => Some([c] + rest)
  }

  lemma TwoByteArithmetic(n: int)
    requires 0x80 <= n < 0x800
    ensures (n / 64) * 64 + n % 64 == n && 0xC0 <= 0xC0 + n / 64 < 0xE0
  {
  }

  lemma ThreeByteArithmetic(n: int)
    requires 0x800 <= n < 0x10000
    ensures (n / 4096) * 4096 + (n / 64 % 64) * 64 + n % 64 == n
    ensures 0xE0 <= 0xE0 + n / 4096 < 0xF0
  {
    assert n / 64 == (n / 4096) * 64 + n / 64 % 64;
  }

  lemma FourByteArithmetic(n: int)
    requires 0x10000 <= n < 0x110000
    ensures (n / 262144) * 262144 + (n / 4096 % 64) * 4096 + (n / 64 % 64) * 64 + n % 64 == n
    ensures 0xF0 <= 0xF0 + n / 262144 < 0xF8
  {
    assert n / 4096 == (n / 262144) * 64 + n / 4096 % 64;
    assert n / 64 == (n / 4096) * 64 + n / 64 % 64;
  }

  /** The bytes of one encoded character announce their own width, are followed
      by continuation bytes only, and spell out the character's code point. */
  lemma Utf8CharShape(c: char)
    ensures Utf8Width(Utf8Char(c)[0]) == |Utf8Char(c)|
    ensures forall i :: 1 <= i < |Utf8Char(c)| ==> IsContinuation(Utf8Char(c)[i])
    ensures CodePoint(Utf8Char(c)) == c as int
  {
    var n := c as int;
    if 0x80 <= n < 0x800 {
      TwoByteArithmetic(n);
    } else if 0x800 <= n < 0x10000 {
      ThreeByteArithmetic(n);
    } else if 0x10000 <= n {
      FourByteArithmetic(n);
    }
  }

  lemma DecodeCharOfEncoding(c: char, tail: seq<byte>)
    ensures DecodeChar(Utf8Char(c) + tail) == Some((c, |Utf8Char(c)|))
  {
    var bs := Utf8Char(c) + tail;
    var w := |Utf8Char(c)|;
    assert bs[..w] == Utf8Char(c);
    Utf8CharShape(c);
    assert IsScalar(c as int);
    assert forall i :: 1 <= i < w ==> bs[i] == Utf8Char(c)[i];
  }

  /** Decoding what `encode("utf-8")` produced gives the string back. */
  lemma {:induction false} Utf8RoundTrip(s: string)
    ensures Utf8Decode(Utf8(s)) == Some(s)
  {
    if s != [] {
      var head := Utf8Char(s[0]);
      var bs := Utf8(s);
      assert bs == head + Utf8(s[1..]);
      DecodeCharOfEncoding(s[0], Utf8(s[1..]));
      assert bs[|head|..] == Utf8(s[1..]);
      Utf8RoundTrip(s[1..]);
      assert [s[0]] + s[1..] == s;
    }
  }

  /** An ASCII string encodes to its own code points, one byte per character. */
  lemma {:induction false} Utf8Ascii(s: string)
    requires forall i :: 0 <= i < |s| ==> s[i] as int < 0x80
    ensures |Utf8(s)| == |s|
    ensures forall i :: 0 <= i < |s| ==> Utf8(s)[i] == s[i] as int
  {
    if s != [] {
      Utf8Ascii(s[1..]);
    }
  }
}
