/** `urllib.parse.quote_plus` with its defaults (`safe=''`, UTF-8): the
    unreserved characters of section 2.3 of RFC 3986 pass through, a space
    becomes `+` as in the application/x-www-form-urlencoded serializer of the
    WHATWG URL Standard (section 5), and every other byte becomes `%XX` with
    upper-case hexadecimal digits (section 2.1 of RFC 3986). */
module UrlQuote {
  import opened Results
  import opened Utf8

  /** `A-Z a-z 0-9 _ . - ~`: the characters `quote` never escapes. */
  predicate IsUnreservedChar(c: char) {
    ('A' <= c <= 'Z') || ('a' <= c <= 'z') || ('0' <= c <= '9')
    || c == '_' || c == '.' || c == '-' || c == '~'
  }

  predicate IsUnreserved(b: byte) {
    IsUnreservedChar(b as char)
  }

  /** Everything `quote_plus` can emit. */
  predicate IsQuotedChar(c: char) {
    IsUnreservedChar(c) || c == '%' || c == '+'
  }

  /** Upper-case hexadecimal digit for 0..15. */
  function HexDigit(n: nat): (c: char)
    requires n < 16
    ensures IsUnreservedChar(c)
    ensures IsUpperHex(c)
  {
    if n < 10 then ('0' as int + n) as char else ('A' as int + n - 10) as char
  }

  /** The digits `quote` emits in an escape. */
  predicate IsUpperHex(c: char) {
    ('0' <= c <= '9') || ('A' <= c <= 'F')
  }

  predicate IsHexChar(c: char) {
    ('0' <= c <= '9') || ('A' <= c <= 'F') || ('a' <= c <= 'f')
  }

  function HexValue(c: char): (n: nat)
    requires IsHexChar(c)
    ensures n < 16
  {
    if '0' <= c <= '9' then c as int - '0' as int
    else if 'A' <= c <= 'F' then c as int - 'A' as int + 10
    else c as int - 'a' as int + 10
  }

  lemma HexRoundTrip(n: nat)
    requires n < 16
    ensures IsHexChar(HexDigit(n)) && HexValue(HexDigit(n)) == n
  {
  }

  /** The text one byte turns into. */
  function QuoteByte(b: byte): (r: string)
    ensures r == "+" <==> b == 0x20
    ensures |r| == 1 <==> (b == 0x20 || IsUnreserved(b))
    ensures |r| != 1 ==> |r| == 3 && r[0] == '%'
    ensures IsUnreserved(b) ==> r == [b as char]
    ensures |r| == 3 ==> IsUpperHex(r[1]) && IsUpperHex(r[2]) && HexValue(r[1]) * 16 + HexValue(r[2]) == b
    ensures forall i :: 0 <= i < |r| ==> IsQuotedChar(r[i])
  {
    if b == 0x20 then "+"
    else if IsUnreserved(b) then [b as char]
    else ['%', HexDigit(b / 16), HexDigit(b % 16)]
  }

  /** `quote_from_bytes` with `+` for space: byte by byte, in order. */
  function QuoteFromBytes(bs: seq<byte>): (r: string)
    ensures forall i :: 0 <= i < |r| ==> IsQuotedChar(r[i])
    ensures |bs| <= |r| <= 3 * |bs|
  {
    if |bs| == 0 then [] else QuoteByte(bs[0]) + QuoteFromBytes(bs[1..])
  }

  /** `quote_plus(s)`: the UTF-8 bytes of `s`, percent-encoded. */
  function QuotePlus(s: string): (r: string)
    ensures forall i :: 0 <= i < |r| ==> IsQuotedChar(r[i])
    ensures '@' !in r && ':' !in r && '/' !in r && '?' !in r && '&' !in r
  {
    QuoteFromBytes(Encode(s))
  }

  /** The strict inverse: `+` is a space, `%XX` (either case) is one byte,
      an unreserved character is its own byte, anything else is malformed. */
  function UnquotePlus(s: string): Option<seq<byte>>
    decreases |s|
  {
    if |s| == 0 then Some([])
    else if s[0] == '+' then Prepend(0x20, UnquotePlus(s[1..]))
    else if s[0] == '%' then
      if |s| >= 3 && IsHexChar(s[1]) && IsHexChar(s[2])
      then Prepend(HexValue(s[1]) * 16 + HexValue(s[2]), UnquotePlus(s[3..]))
      else None
    else if IsUnreservedChar(s[0]) then Prepend(s[0] as int, UnquotePlus(s[1..]))
    else None
  }

  function Prepend(b: byte, rest: Option<seq<byte>>): Option<seq<byte>>
  {
    match rest
    case None => None
    case Some(bs) => Some([b] + bs)
  }

  /** Decoding the text of one byte yields that byte, whatever follows. */
  lemma UnquoteQuoteByte(b: byte, rest: string)
    ensures UnquotePlus(QuoteByte(b) + rest) == Prepend(b, UnquotePlus(rest))
  {
  }

  /** Percent-decoding inverts percent-encoding on every byte string. */
  lemma {:induction false} UnquoteQuote(bs: seq<byte>)
    ensures UnquotePlus(QuoteFromBytes(bs)) == Some(bs)
  {
    if |bs| > 0 {
      UnquoteQuoteByte(bs[0], QuoteFromBytes(bs[1..]));
      UnquoteQuote(bs[1..]);
      assert [bs[0]] + bs[1..] == bs;
    }
  }

  /** The password survives encoding: decoding the percent-escapes and then
      the UTF-8 gives back exactly the string that was quoted. */
  lemma QuotePlusRoundTrip(s: string)
    ensures UnquotePlus(QuotePlus(s)) == Some(Encode(s))
    ensures Decode(UnquotePlus(QuotePlus(s)).value) == Some(s)
  {
    UnquoteQuote(Encode(s));
    DecodeEncode(s);
  }

  /** A string made only of unreserved ASCII characters is left unchanged. */
  lemma {:induction false} QuotePlusUnreservedIdentity(s: string)
    requires forall i :: 0 <= i < |s| ==> IsUnreservedChar(s[i])
    ensures QuotePlus(s) == s
  {
    if |s| > 0 {
      QuotePlusUnreservedIdentity(s[1..]);
      assert Encode(s) == EncodeChar(s[0]) + Encode(s[1..]);
      assert EncodeChar(s[0]) == [s[0] as int];
      assert QuoteFromBytes(Encode(s)) == QuoteByte(s[0] as int) + QuoteFromBytes(Encode(s[1..]));
      assert [s[0]] + s[1..] == s;
    }
  }
}
