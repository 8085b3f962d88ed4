/// Percent-encoding as `urllib.parse.quote(value)` does it with its default
/// `safe="/"`: the value is encoded as UTF-8, and every byte that is neither an
/// unreserved character (section 2.3 of RFC 3986) nor `/` becomes `%` followed by
/// two upper-case hexadecimal digits (section 2.1 of RFC 3986).
/// `unquote_to_bytes` is the inverse used to state that nothing is lost.
module Percent {
  import opened PyValues

  const HEX_UPPER := "0123456789ABCDEF"

  /** The unreserved characters of section 2.3 of RFC 3986: ALPHA / DIGIT / "-" / "." / "_" / "~". */
  predicate Unreserved(c: char) {
    ('A' <= c <= 'Z') || ('a' <= c <= 'z') || ('0' <= c <= '9') || c == '-' || c == '.' || c == '_' || c == '~'
  }

  /** The characters `quote` leaves alone with its default `safe="/"`. */
  predicate QuoteSafe(c: char) {
    Unreserved(c) || c == '/'
  }

  /** `quote_from_bytes(bs, safe="/")` */
  function QuoteBytes(bs: seq<byte>): (r: string)
    ensures |r| >= |bs|
  {
    if bs == [] then ""
    else
      QuoteByte(bs[0]) + QuoteBytes(bs[1..])
  }

  /** The characters `quote_from_bytes` can write: safe ones, `%` and upper-case hex digits. */
  predicate InQuoteAlphabet(c: char) {
    QuoteSafe(c) || c == '%' || c in HEX_UPPER
  }

  lemma {:induction false} QuoteBytesAlphabet(bs: seq<byte>)
    ensures forall i :: 0 <= i < |QuoteBytes(bs)| ==> InQuoteAlphabet(QuoteBytes(bs)[i])
  {
    if bs != [] {
      var head, rest := QuoteByte(bs[0]), QuoteBytes(bs[1..]);
      QuoteBytesAlphabet(bs[1..]);
      assert forall i :: 0 <= i < |head| ==> InQuoteAlphabet(head[i]);
      assert QuoteBytes(bs) == head + rest;
    }
  }

  /** `quote(s)`: UTF-8 encoding, then percent-encoding of every byte outside the safe set. */
  function Quote(s: string): (r: string)
    ensures forall i :: 0 <= i < |r| ==> QuoteSafe(r[i]) || r[i] == '%' || r[i] in HEX_UPPER
  {
    QuoteBytesAlphabet(Utf8(s));
    QuoteBytes(Utf8(s))
  }

  predicate IsHexDigit(c: char) {
    ('0' <= c <= '9') || ('A' <= c <= 'F') || ('a' <= c <= 'f')
  }

  function HexValue(c: char): (v: nat)
    requires IsHexDigit(c)
    ensures v < 16
  {
    if '0' <= c <= '9' then c as int - '0' as int
    else if 'A' <= c <= 'F' then c as int - 'A' as int + 10
    else c as int - 'a' as int + 10
  }

  /** `unquote_to_bytes(t)`: every `%` followed by two hexadecimal digits (either case)
      becomes that byte; every other character contributes its UTF-8 bytes. */
  function UnquoteToBytes(t: string): seq<byte> {
    if t == [] then []
    else if t[0] == '%' && |t| >= 3 && IsHexDigit(t[1]) && IsHexDigit(t[2]) then
      [HexValue(t[1]) * 16 + HexValue(t[2])] + UnquoteToBytes(t[3..])
    else
      Utf8Char(t[0]) + UnquoteToBytes(t[1..])
  }

  lemma HexUpperDigit(d: nat)
    requires d < 16
    ensures IsHexDigit(HEX_UPPER[d]) && HexValue(HEX_UPPER[d]) == d
  {
  }

  /** The encoding of one byte, as `quote_from_bytes` writes it. */
  function QuoteByte(b: byte): string {
    if b < 0x80 && QuoteSafe(b as char) then [b as char]
    else ['%', HEX_UPPER[b / 16], HEX_UPPER[b % 16]]
  }

  /** Unquoting reads one encoded byte back off the front, whatever follows it. */
  lemma UnquoteQuoteByte(b: byte, t: string)
    ensures UnquoteToBytes(QuoteByte(b) + t) == [b] + UnquoteToBytes(t)
  {
    if b < 0x80 && QuoteSafe(b as char) {
      UnquoteSafeByte(b, t);
    } else {
      UnquoteEscapedByte(b, t);
    }
  }

  lemma UnquoteSafeByte(b: byte, t: string)
    requires b < 0x80 && QuoteSafe(b as char)
    ensures UnquoteToBytes([b as char] + t) == [b] + UnquoteToBytes(t)
  {
    var u := [b as char] + t;
    assert u[0] == b as char && u[0] != '%' && u[1..] == t;
    assert Utf8Char(b as char) == [b];
  }

  lemma UnquoteEscapedByte(b: byte, t: string)
    ensures UnquoteToBytes(['%', HEX_UPPER[b / 16], HEX_UPPER[b % 16]] + t) == [b] + UnquoteToBytes(t)
  {
    var hi, lo := b / 16, b % 16;
    assert hi * 16 + lo == b;
    HexUpperDigit(hi);
    HexUpperDigit(lo);
    var u := ['%', HEX_UPPER[hi], HEX_UPPER[lo]] + t;
    assert u[0] == '%' && u[1] == HEX_UPPER[hi] && u[2] == HEX_UPPER[lo] && u[3..] == t;
    assert UnquoteToBytes(u) == [HexValue(u[1]) * 16 + HexValue(u[2])] + UnquoteToBytes(u[3..]);
  }

  /** Unquoting what `quote_from_bytes` produced gives back the bytes. */
  lemma {:induction false} UnquoteQuoteBytes(bs: seq<byte>)
    ensures UnquoteToBytes(QuoteBytes(bs)) == bs
  {
    if bs != [] {
      assert QuoteBytes(bs) == QuoteByte(bs[0]) + QuoteBytes(bs[1..]);
      UnquoteQuoteByte(bs[0], QuoteBytes(bs[1..]));
      UnquoteQuoteBytes(bs[1..]);
      assert [bs[0]] + bs[1..] == bs;
    }
  }

  /** `unquote(quote(s)) == s`: decoding the unquoted bytes as UTF-8 restores the value. */
  lemma UnquoteQuote(s: string)
    ensures Utf8Decode(UnquoteToBytes(Quote(s))) == Some(s)
  {
    UnquoteQuoteBytes(Utf8(s));
    Utf8RoundTrip(s);
  }

  lemma {:induction false} QuoteBytesAppend(a: seq<byte>, b: seq<byte>)
    ensures QuoteBytes(a + b) == QuoteBytes(a) + QuoteBytes(b)
  {
    if a != [] {
      assert (a + b)[1..] == a[1..] + b;
      QuoteBytesAppend(a[1..], b);
    } else {
      assert a + b == b;
    }
  }

  /** A value made only of unreserved characters and `/` passes through `quote` unchanged. */
  lemma {:induction false} QuoteKeepsSafe(s: string)
    requires forall i :: 0 <= i < |s| ==> QuoteSafe(s[i])
    ensures Quote(s) == s
  {
    if s != [] {
      var c := s[0];
      assert Utf8Char(c) == [c as int];
      assert Utf8(s) == [c as int] + Utf8(s[1..]);
      QuoteBytesAppend([c as int], Utf8(s[1..]));
      assert QuoteBytes([c as int]) == [c];
      QuoteKeepsSafe(s[1..]);
      assert [c] + s[1..] == s;
    }
  }

  /** Wherever a byte outside the safe set sits in the UTF-8 encoding of `s`, `quote(s)`
      writes it as `%` and two upper-case hex digits, between the encodings of the
      bytes before and after it. */
  lemma QuoteEscapes(s: string, i: nat)
    requires i < |Utf8(s)| && !(Utf8(s)[i] < 0x80 && QuoteSafe(Utf8(s)[i] as char))
    ensures var bs := Utf8(s);
            var b := bs[i];
            Quote(s) == QuoteBytes(bs[..i]) + ['%', HEX_UPPER[b / 16], HEX_UPPER[b % 16]] + QuoteBytes(bs[i + 1..])
  {
    QuoteBytesAt(Utf8(s), i);
  }

  /** The encoding of a byte sequence, split around its byte at `i`. */
  lemma {:induction false} QuoteBytesAt(bs: seq<byte>, i: nat)
    requires i < |bs|
    ensures QuoteBytes(bs) == QuoteBytes(bs[..i]) + QuoteByte(bs[i]) + QuoteBytes(bs[i + 1..])
  {
    if i == 0 {
      assert QuoteBytes(bs[..0]) == "";
    } else {
      var tail := bs[1..];
      QuoteBytesAt(tail, i - 1);
      assert tail[..i - 1] == bs[..i][1..];
      assert tail[i - 1] == bs[i];
      assert tail[i..] == bs[i + 1..];
      var head, before, at, after := QuoteByte(bs[0]), QuoteBytes(tail[..i - 1]), QuoteByte(bs[i]), QuoteBytes(bs[i + 1..]);
      assert QuoteBytes(tail) == before + at + after;
      assert QuoteBytes(bs) == head + QuoteBytes(tail);
      assert QuoteBytes(bs[..i]) == head + before;
      Regroup(head, before, at, after);
    }
  }

  lemma Regroup(a: string, b: string, c: string, d: string)
    ensures a + (b + c + d) == (a + b) + c + d
  {
  }
}
