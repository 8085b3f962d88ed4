/// `generate_sign` (app_aliexpress/views.py): the request-signing step of the
/// marketplace client. Each parameter value is converted with `str()` and
/// percent-encoded, the keys are sorted, `key + value` pairs are concatenated,
/// and the API name is put in front only when it is a REST path (contains `/`).
/// The HMAC-SHA256 of that string (RFC 2104 over FIPS 180-4) is a function
/// parameter here, returning 32 bytes; its hex digest is upper-cased.
module Signer {
  import opened PyValues
  import opened Percent
  import opened KeyOrder

  /** A Python dict with string keys: the keys in insertion order and the key-to-value table. */
  datatype Dict<V> = Dict(order: seq<string>, table: map<string, V>)

  predicate IsDict<V>(d: Dict<V>) {
    && Distinct(d.order)
    && (forall k :: k in d.order ==> k in d.table)
    && (forall k :: k in d.table ==> k in d.order)
  }

  type PyDict<V> = d: Dict<V> | IsDict(d) witness Dict([], map[])

  /** The parameter values the views pass in: strings, and numbers or flags that `str()` spells out. */
  datatype ParamValue = PStr(s: string) | PInt(i: int) | PBool(b: bool)

  /** `str(v)`: a string as it is, an integer as a numeral `int()` reads back, a flag as `True`/`False`. */
  function Str(v: ParamValue): (r: string)
    ensures v.PStr? ==> r == v.s
    ensures v.PInt? ==> r == IntToStr(v.i) && ParseInt(r) == Some(v.i)
    ensures v.PBool? ==> r == (if v.b then "True" else "False") && ParseInt(r) == None
  {
    match v
    case PStr(s) => s
    case PInt(i) => IntOfStr(i); IntToStr(i)
    case PBool(b) => if b then "True" else "False"
  }

  /** `{k: quote(str(v)) for k, v in parameters.items()}`: same keys, same order, values encoded. */
  function EncodedParameters(p: PyDict<ParamValue>): (e: PyDict<string>)
    ensures e.order == p.order && e.table.Keys == p.table.Keys
    ensures forall k :: k in p.table ==> e.table[k] == Quote(Str(p.table[k]))
  {
    Dict(p.order, map k | k in p.table :: Quote(Str(p.table[k])))
  }

  /** `''.join(f"{k}{encoded[k]}" for k in keys)` */
  function JoinedPairs(keys: seq<string>, encoded: map<string, string>): string
    requires forall k :: k in keys ==> k in encoded
  {
    if keys == [] then "" else keys[0] + encoded[keys[0]] + JoinedPairs(keys[1..], encoded)
  }

  /** The string `generate_sign` hands to HMAC: the API name when it is a REST
      path, then every key followed by its percent-encoded `str()` value, keys in
      ascending order. */
  function CanonicalString(apiName: string, p: PyDict<ParamValue>): (r: string)
    ensures && (forall k :: k in SortKeys(p.order) ==> k in p.table)
            && r == (if '/' in apiName then apiName else "") + PairsInOrder(SortKeys(p.order), p.table)
  {
    var encoded := EncodedParameters(p);
    var sortedParams := SortKeys(encoded.order);
    SortKeysMembers(encoded.order);
    JoinedPairsOfEncoded(sortedParams, p);
    var joined := JoinedPairs(sortedParams, encoded.table);
    if '/' in apiName then apiName + joined else joined
  }


  /** The same parameters inserted in any order give the same canonical string. */
  lemma CanonicalOrderIndependent(apiName: string, p: PyDict<ParamValue>, q: PyDict<ParamValue>)
    requires p.table == q.table
    ensures CanonicalString(apiName, p) == CanonicalString(apiName, q)
  {
    DistinctSameMembers(p.order, q.order);
    SortKeysOrderIndependent(p.order, q.order);
    assert EncodedParameters(p).table == EncodedParameters(q).table;
  }

  /** The pairs `key + quote(str(value))` of the listed keys, in the listed order. */
  function PairsInOrder(keys: seq<string>, table: map<string, ParamValue>): string
    requires forall k :: k in keys ==> k in table
  {
    if keys == [] then "" else keys[0] + Quote(Str(table[keys[0]])) + PairsInOrder(keys[1..], table)
  }

  lemma {:induction false} JoinedPairsOfEncoded(keys: seq<string>, p: PyDict<ParamValue>)
    requires forall k :: k in keys ==> k in p.table
    ensures JoinedPairs(keys, EncodedParameters(p).table) == PairsInOrder(keys, p.table)
  {
    if keys != [] {
      JoinedPairsOfEncoded(keys[1..], p);
    }
  }

  /** Whatever order the parameters were added in, the canonical string lists the
      pairs in ascending key order: it equals the pairs of the same table written
      out along any ascending listing `q` of its keys. */
  lemma CanonicalInKeyOrder(apiName: string, p: PyDict<ParamValue>, q: PyDict<ParamValue>)
    requires q.table == p.table && Ascending(q.order)
    ensures CanonicalString(apiName, p) ==
              (if '/' in apiName then apiName else "") + PairsInOrder(q.order, p.table)
  {
    CanonicalOrderIndependent(apiName, p, q);
    SortKeysOfAscending(q.order);
    JoinedPairsOfEncoded(q.order, q);
  }

  /** A REST path (`/` in the name) starts the canonical string, ahead of the pairs. */
  lemma ApiNamePrefixed(apiName: string, p: PyDict<ParamValue>)
    requires '/' in apiName
    ensures CanonicalString(apiName, p) == apiName + CanonicalString("", p)
  {
  }

  /** A method name without `/` leaves no trace: any two such names give the same string. */
  lemma ApiNameOmitted(apiName: string, other: string, p: PyDict<ParamValue>)
    requires '/' !in apiName && '/' !in other
    ensures CanonicalString(apiName, p) == CanonicalString(other, p)
  {
  }

  /** With no parameters the canonical string is the API name or the empty string. */
  lemma CanonicalOfNoParameters(apiName: string)
    ensures CanonicalString(apiName, Dict([], map[])) == if '/' in apiName then apiName else ""
  {
  }

  /** One parameter: its key verbatim, then its value converted by `str()` and percent-encoded. */
  lemma CanonicalOfOneParameter(apiName: string, p: PyDict<ParamValue>, key: string)
    requires p.order == [key]
    ensures CanonicalString(apiName, p) == (if '/' in apiName then apiName else "") + (key + Quote(Str(p.table[key])))
  {
    CanonicalInKeyOrder(apiName, p, p);
    var pair := key + Quote(Str(p.table[key]));
    assert PairsInOrder([key], p.table) == pair + "" == pair;
  }

  // ---------------------------------------------------------------------
  // Hex digest, upper-cased
  // ---------------------------------------------------------------------

  const HEX_LOWER := "0123456789abcdef"

  type Digest = d: seq<byte> | |d| == 32 witness seq(32, _ => 0)

  /** `hexdigest()`: two lower-case hex digits per byte. */
  function HexDigest(d: seq<byte>): string {
    if d == [] then "" else LowerPair(d[0]) + HexDigest(d[1..])
  }

  function AsciiUpper(c: char): char {
    if 'a' <= c <= 'z' then (c as int - 32) as char else c
  }

  /** `str.upper()` on the ASCII text of a hex digest. */
  function Upper(s: string): string {
    if s == [] then "" else [AsciiUpper(s[0])] + Upper(s[1..])
  }

  /** Reads hex digits back two at a time; None for an odd length or a non-hex character. */
  function HexDecode(s: string): Option<seq<byte>> {
    if s == [] then Some([])
    else if |s| < 2 || !IsHexDigit(s[0]) || !IsHexDigit(s[1]) then None
    else
      match HexDecode(s[2..])
      case None => None
      case Some(rest) => Some([HexValue(s[0]) * 16 + HexValue(s[1])] + rest)
  }

  /** The two digits of one byte, lower-case as `hexdigest` writes them and upper-cased. */
  function LowerPair(b: byte): string {
    [HEX_LOWER[b / 16], HEX_LOWER[b % 16]]
  }

  function UpperPair(b: byte): string {
    [HEX_UPPER[b / 16], HEX_UPPER[b % 16]]
  }

  lemma UpperOfPair(b: byte, t: string)
    ensures Upper(LowerPair(b) + t) == UpperPair(b) + Upper(t)
  {
    var u := LowerPair(b) + t;
    assert u[1..] == [HEX_LOWER[b % 16]] + t;
    assert u[1..][1..] == t;
    assert AsciiUpper(HEX_LOWER[b / 16]) == HEX_UPPER[b / 16];
    assert AsciiUpper(HEX_LOWER[b % 16]) == HEX_UPPER[b % 16];
  }

  lemma HexDecodeCons(c: char, d: char, t: string)
    requires IsHexDigit(c) && IsHexDigit(d)
    requires HexDecode(t).Some?
    ensures HexDecode([c, d] + t) == Some([HexValue(c) * 16 + HexValue(d)] + HexDecode(t).value)
  {
    assert ([c, d] + t)[2..] == t;
  }

  lemma HexDecodePair(b: byte, t: string)
    requires HexDecode(t).Some?
    ensures HexDecode(UpperPair(b) + t) == Some([b] + HexDecode(t).value)
  {
    HexUpperDigit(b / 16);
    HexUpperDigit(b % 16);
    HexDecodeCons(HEX_UPPER[b / 16], HEX_UPPER[b % 16], t);
  }

  /** The upper-cased hex digest has two characters per byte, all from `0-9A-F`,
      and reading it back gives the digest. */
  lemma {:induction false} UpperHexDigest(d: seq<byte>)
    ensures |Upper(HexDigest(d))| == 2 * |d|
    ensures forall i :: 0 <= i < |Upper(HexDigest(d))| ==> Upper(HexDigest(d))[i] in HEX_UPPER
    ensures HexDecode(Upper(HexDigest(d))) == Some(d)
  {
    if d != [] {
      var tail := Upper(HexDigest(d[1..]));
      assert HexDigest(d) == LowerPair(d[0]) + HexDigest(d[1..]);
      UpperOfPair(d[0], HexDigest(d[1..]));
      UpperHexDigest(d[1..]);
      HexDecodePair(d[0], tail);
      assert [d[0]] + d[1..] == d;
    }
  }

  /** `generate_sign(secret, api_name, parameters)` */
  function Sign(hmac: (seq<byte>, seq<byte>) -> Digest, secret: string, apiName: string, p: PyDict<ParamValue>): (sig: string)
    ensures |sig| == 64
    ensures forall i :: 0 <= i < |sig| ==> sig[i] in HEX_UPPER
    ensures HexDecode(sig) == Some(hmac(Utf8(secret), Utf8(CanonicalString(apiName, p))))
  {
    var digest := hmac(Utf8(secret), Utf8(CanonicalString(apiName, p)));
    UpperHexDigest(digest);
    Upper(HexDigest(digest))
  }

  /** The signature does not depend on the order the parameters were added in. */
  lemma SignOrderIndependent(hmac: (seq<byte>, seq<byte>) -> Digest, secret: string, apiName: string,
                             p: PyDict<ParamValue>, q: PyDict<ParamValue>)
    requires p.table == q.table
    ensures Sign(hmac, secret, apiName, p) == Sign(hmac, secret, apiName, q)
  {
    CanonicalOrderIndependent(apiName, p, q);
  }
}
