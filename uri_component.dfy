/** `encodeURIComponent` (ECMA-262, 6th edition, section 18.2.6.5) and the value decoding of
    application/x-www-form-urlencoded parsing (WHATWG URL Standard), at the level of single
    ASCII characters. Characters outside ASCII are passed through as they are. */
module UriComponent {

  /** The characters `encodeURIComponent` leaves unescaped: letters, digits and `-_.!~*'()`. */
  predicate IsUnreserved(c: char) {
    || ('A' <= c <= 'Z') || ('a' <= c <= 'z') || ('0' <= c <= '9')
    || c == '-' || c == '_' || c == '.' || c == '!' || c == '~' || c == '*' || c == '\'' || c == '(' || c == ')'
  }

  predicate IsHexDigit(c: char) {
    ('0' <= c <= '9') || ('A' <= c <= 'F') || ('a' <= c <= 'f')
  }

  /** The upper-case hexadecimal digit for `n`, as `encodeURIComponent` writes it. */
  function HexDigit(n: nat): (c: char)
    requires n < 16
    ensures IsHexDigit(c)
  {
    if n < 10 then ('0' as int + n) as char else ('A' as int + n - 10) as char
  }

  /** The value of a hexadecimal digit of either case. */
  function HexValue(c: char): (n: nat)
    requires IsHexDigit(c)
    ensures n < 16
  {
    if '0' <= c <= '9' then c as int - '0' as int
    else if 'A' <= c <= 'F' then c as int - 'A' as int + 10
    else c as int - 'a' as int + 10
  }

  lemma HexValueOfHexDigit(n: nat)
    requires n < 16
    ensures HexValue(HexDigit(n)) == n
  {
  }

  /** One character of `encodeURIComponent`'s output: unreserved characters stay, every
      other ASCII character becomes `%` and two upper-case hexadecimal digits. */
  function EncodeChar(c: char): (r: string)
    ensures IsUnreserved(c) || c as int >= 0x80 ==> r == [c]
    ensures !IsUnreserved(c) && c as int < 0x80 ==>
      |r| == 3 && r[0] == '%' && IsHexDigit(r[1]) && IsHexDigit(r[2])
      && HexValue(r[1]) * 16 + HexValue(r[2]) == c as int
  {
    if IsUnreserved(c) || c as int >= 0x80 then
      [c]
    else
      HexValueOfHexDigit(c as int / 16);
      HexValueOfHexDigit(c as int % 16);
      ['%', HexDigit(c as int / 16), HexDigit(c as int % 16)]
  }

  /** The characters that would split or end a query string if they were left unescaped. */
  predicate IsQueryDelimiter(c: char) {
    c == '&' || c == '=' || c == '#' || c == '+' || c == '?'
  }

  /** `encodeURIComponent(s)`. No character of the result can split or end the query string
      it is put into. */
  function Encode(s: string): (r: string)
    ensures forall i :: 0 <= i < |r| ==> !IsQueryDelimiter(r[i])
  {
    if s == [] then [] else EncodeChar(s[0]) + Encode(s[1..])
  }

  /** A name or value of a form-urlencoded string decoded: `+` stands for a space, and `%`
      with two hexadecimal digits for the ASCII character they give. Any other `%` is kept. */
  function Decode(s: string): (r: string)
    ensures |r| <= |s|
    ensures (forall i :: 0 <= i < |s| ==> s[i] != '%') ==> |r| == |s|
    decreases |s|
  {
    if s == [] then []
    else if s[0] == '+' then [' '] + Decode(s[1..])
    else if s[0] == '%' && |s| >= 3 && IsHexDigit(s[1]) && IsHexDigit(s[2]) && HexValue(s[1]) < 8 then
      [(HexValue(s[1]) * 16 + HexValue(s[2])) as char] + Decode(s[3..])
    else [s[0]] + Decode(s[1..])
  }

  lemma DecodeEncodedChar(c: char, rest: string)
    ensures Decode(EncodeChar(c) + rest) == [c] + Decode(rest)
  {
    var e := EncodeChar(c);
    if !IsUnreserved(c) && c as int < 0x80 {
      assert (e + rest)[3..] == rest;
      assert (e + rest)[..3] == e;
    } else {
      assert (e + rest)[1..] == rest;
    }
  }

  /** Decoding an encoded string gives the string back. */
  lemma {:induction false} DecodeEncode(s: string)
    ensures Decode(Encode(s)) == s
  {
    if s != [] {
      DecodeEncodedChar(s[0], Encode(s[1..]));
      DecodeEncode(s[1..]);
      assert s == [s[0]] + s[1..];
    }
  }

  /** A string without `+` or `%` decodes to itself. */
  lemma {:induction false} DecodePlain(s: string)
    requires forall i :: 0 <= i < |s| ==> s[i] != '+' && s[i] != '%'
    ensures Decode(s) == s
  {
    if s != [] {
      DecodePlain(s[1..]);
      assert s == [s[0]] + s[1..];
    }
  }
}
