/** Base64 as RFC 4648 defines it, as the browser decodes it, and as workbooks and embed tokens use it. */
module Base64 {
  import opened Division
  import opened Options
  import opened Strings

  type Byte = b: nat | b < 256

  type Sextet = v: nat | v < 64

  /** RFC 4648, table 1. */
  function Digit(v: Sextet): char {
    if v < 26 then 'A' + v as char
    else if v < 52 then 'a' + (v - 26) as char
    else if v < 62 then '0' + (v - 52) as char
    else if v == 62 then '+'
    else '/'
  }

  function Value(c: char): Option<Sextet> {
    if 'A' <= c <= 'Z' then Some(c as int - 'A' as int)
    else if 'a' <= c <= 'z' then Some(c as int - 'a' as int + 26)
    else if '0' <= c <= '9' then Some(c as int - '0' as int + 52)
    else if c == '+' then Some(62)
    else if c == '/' then Some(63)
    else None
  }

  lemma DigitReads(v: Sextet)
    ensures Value(Digit(v)) == Some(v)
  {
  }

  /** RFC 4648, table 2: the URL and filename safe alphabet. */
  function UrlDigit(v: Sextet): char {
    if v == 62 then '-' else if v == 63 then '_' else Digit(v)
  }

  /** Three bytes as a 24-bit number. */
  function Join3(a: nat, b: nat, c: nat): nat {
    65536 * a + 256 * b + c
  }

  /** Four digits as a 24-bit number. */
  function Join4(a: nat, b: nat, c: nat, d: nat): nat {
    262144 * a + 4096 * b + 64 * c + d
  }

  /** The group of up to three bytes, with zero bits for those that are missing. */
  function Group(bytes: seq<Byte>): (g: nat)
    ensures g < 0x100_0000
  {
    Join3(if |bytes| > 0 then bytes[0] else 0, if |bytes| > 1 then bytes[1] else 0, if |bytes| > 2 then bytes[2] else 0)
  }

  /** The first k of the four 6-bit digits of a group. */
  function SextetsOf(group: nat, k: nat): (digits: seq<Sextet>)
    requires group < 0x100_0000 && k <= 4
    ensures |digits| == k
  {
    var digits: seq<Sextet> := [group / 64 / 64 / 64, group / 64 / 64 % 64, group / 64 % 64, group % 64];
    digits[..k]
  }

  /** RFC 4648, section 4: groups of three bytes give four digits; a last one gives two, a last two give three. */
  function Sextets(bytes: seq<Byte>): seq<Sextet> {
    if |bytes| == 0 then []
    else if |bytes| < 3 then SextetsOf(Group(bytes), |bytes| + 1)
    else SextetsOf(Group(bytes[..3]), 4) + Sextets(bytes[3..])
  }

  function Text(digits: seq<Sextet>): (s: string)
    ensures |s| == |digits| && forall i | 0 <= i < |s| :: s[i] == Digit(digits[i])
  {
    if digits == [] then "" else Text(digits[..|digits| - 1]) + [Digit(digits[|digits| - 1])]
  }

  function UrlText(digits: seq<Sextet>): (s: string)
    ensures |s| == |digits| && forall i | 0 <= i < |s| :: s[i] == UrlDigit(digits[i])
  {
    if digits == [] then "" else UrlText(digits[..|digits| - 1]) + [UrlDigit(digits[|digits| - 1])]
  }

  function Padding(bytes: seq<Byte>): string {
    if |bytes| % 3 == 1 then "==" else if |bytes| % 3 == 2 then "=" else ""
  }

  function Encode(bytes: seq<Byte>): string {
    Text(Sextets(bytes)) + Padding(bytes)
  }

  /** RFC 4648, section 5, without padding. */
  function EncodeUrl(bytes: seq<Byte>): string {
    UrlText(Sextets(bytes))
  }

  // ---- Decoding (forgiving-base64 decode, WHATWG Infra Standard, section 7) ----

  predicate IsAsciiSpace(c: char) {
    c == '\t' || c == '\n' || c as int == 12 || c == '\r' || c == ' '
  }

  function WithoutSpaces(s: string): string {
    if s == [] then []
    else WithoutSpaces(s[..|s| - 1]) + if IsAsciiSpace(s[|s| - 1]) then [] else [s[|s| - 1]]
  }

  /** In a text of whole groups, one or two last equals signs are padding. */
  function WithoutPadding(s: string): string {
    if |s| % 4 != 0 || s == [] || s[|s| - 1] != '=' then s
    else if s[|s| - 2] == '=' then s[..|s| - 2]
    else s[..|s| - 1]
  }

  function Values(s: string): (r: Option<seq<Sextet>>)
    ensures r.Some? ==> |r.value| == |s|
  {
    if s == [] then Some([])
    else
      var front :- Values(s[..|s| - 1]);
      var v :- Value(s[|s| - 1]);
      Some(front + [v])
  }

  /** The bytes of up to four digits, leftover bits dropped. */
  function BytesOf(digits: seq<Sextet>): seq<Byte>
    requires 2 <= |digits| <= 4
  {
    var group := Join4(digits[0], digits[1],
                       if |digits| > 2 then digits[2] else 0, if |digits| > 3 then digits[3] else 0);
    assert group < 0x100_0000;
    var bytes: seq<Byte> := [group / 256 / 256, group / 256 % 256, group % 256];
    bytes[..|digits| - 1]
  }

  function Bytes(digits: seq<Sextet>): seq<Byte>
    requires |digits| % 4 != 1
  {
    if digits == [] then []
    else if |digits| <= 4 then BytesOf(digits)
    else BytesOf(digits[..4]) + Bytes(digits[4..])
  }

  function Decode(s: string): Option<seq<Byte>> {
    var t := WithoutPadding(WithoutSpaces(s));
    if |t| % 4 == 1 then None
    else
      var digits :- Values(t);
      Some(Bytes(digits))
  }

  // ---- Round trips ----

  lemma DigitsJoin(g: nat)
    requires g < 0x100_0000
    ensures Join4(g / 64 / 64 / 64, g / 64 / 64 % 64, g / 64 % 64, g % 64) == g
  {
    var x, y := g / 64, g / 64 / 64;
    assert g == 64 * x + g % 64 && x == 64 * y + x % 64 && y == 64 * (y / 64) + y % 64;
  }

  lemma BytesJoin(a: Byte, b: Byte, c: Byte)
    ensures var g := Join3(a, b, c); g / 256 / 256 == a && g / 256 % 256 == b && g % 256 == c
  {
    QuotientAndRemainder(256, 256 * a + b, c);
    QuotientAndRemainder(256, a, b);
    assert Join3(a, b, c) == 256 * (256 * a + b) + c;
  }

  /** Missing bytes leave the last digits zero, so leaving those out loses nothing. */
  lemma ZeroDigits(a: Byte, b: Byte)
    ensures Join3(a, 0, 0) / 64 % 64 == 0 && Join3(a, b, 0) % 64 == 0
  {
    assert Join3(a, 0, 0) == 64 * (64 * (16 * a)) + 0 && Join3(a, b, 0) == 64 * (1024 * a + 4 * b) + 0;
    QuotientAndRemainder(64, 64 * (16 * a), 0);
    QuotientAndRemainder(64, 16 * a, 0);
    QuotientAndRemainder(64, 1024 * a + 4 * b, 0);
  }

  lemma GroupRoundTrip(bytes: seq<Byte>)
    requires 1 <= |bytes| <= 3
    ensures BytesOf(SextetsOf(Group(bytes), |bytes| + 1)) == bytes
  {
    hide Join3, Join4;
    var a: Byte, b: Byte, c: Byte := bytes[0], if |bytes| > 1 then bytes[1] else 0, if |bytes| > 2 then bytes[2] else 0;
    DigitsJoin(Group(bytes));
    BytesJoin(a, b, c);
    ZeroDigits(a, b);
  }

  /** So many digits after the last whole group call for that padding. */
  predicate Fits(digits: nat, padding: string) {
    if digits == 0 then padding == "" else if digits == 2 then padding == "==" else digits == 3 && padding == "="
  }

  lemma {:induction false} SextetsRoundTrip(bytes: seq<Byte>)
    ensures Fits(|Sextets(bytes)| % 4, Padding(bytes))
    ensures Bytes(Sextets(bytes)) == bytes
  {
    hide BytesOf, SextetsOf, Group;
    if bytes == [] {
    } else {
      if |bytes| <= 3 {
        GroupRoundTrip(bytes);
        assert |bytes| == 3 ==> bytes[..3] == bytes && Sextets(bytes[3..]) == [];
        assert Sextets(bytes) == SextetsOf(Group(bytes), |bytes| + 1);
      } else {
        GroupRoundTrip(bytes[..3]);
        SextetsRoundTrip(bytes[3..]);
        var digits := Sextets(bytes);
        assert digits[..4] == SextetsOf(Group(bytes[..3]), 4) && digits[4..] == Sextets(bytes[3..]);
        assert Sextets(bytes[3..]) != [];
      }
    }
  }

  lemma {:induction false} TextReads(digits: seq<Sextet>)
    ensures Values(Text(digits)) == Some(digits)
  {
    hide Value, Digit;
    if digits == [] {
    } else {
      TextReads(digits[..|digits| - 1]);
      DigitReads(digits[|digits| - 1]);
      assert digits == digits[..|digits| - 1] + [digits[|digits| - 1]];
      assert Text(digits)[..|digits| - 1] == Text(digits[..|digits| - 1]);
    }
  }

  lemma {:induction false} NoSpaces(s: string)
    requires forall i | 0 <= i < |s| :: !IsAsciiSpace(s[i])
    ensures WithoutSpaces(s) == s
  {
    if s == [] {
    } else {
      NoSpaces(s[..|s| - 1]);
    }
  }

  lemma DigitIsPlain(v: Sextet)
    ensures Digit(v) != '=' && !IsAsciiSpace(Digit(v))
  {
  }

  lemma TextIsPlain(digits: seq<Sextet>)
    ensures forall i | 0 <= i < |digits| :: Text(digits)[i] != '=' && !IsAsciiSpace(Text(digits)[i])
  {
    forall i | 0 <= i < |digits|
      ensures Text(digits)[i] != '=' && !IsAsciiSpace(Text(digits)[i])
    {
      DigitIsPlain(digits[i]);
    }
  }

  /** What the padding adds is what decoding takes off. */
  lemma PaddingComesOff(text: string, padding: string)
    requires Fits(|text| % 4, padding) && forall i | 0 <= i < |text| :: text[i] != '='
    ensures WithoutPadding(text + padding) == text && |text + padding| % 4 == 0
  {
    var s := text + padding;
    if padding == "" {
      assert s == text;
    } else {
      assert s[|text|] == '=';
      if padding == "=" {
        assert s[|text| - 1] == text[|text| - 1];
      }
    }
  }

  /** Decoding undoes encoding, for every byte sequence. */
  lemma DecodeUndoesEncode(bytes: seq<Byte>)
    ensures Decode(Encode(bytes)) == Some(bytes)
  {
    hide Sextets, Text, WithoutPadding, Bytes, WithoutSpaces, Padding;
    SextetsRoundTrip(bytes);
    TextIsPlain(Sextets(bytes));
    NoSpaces(Encode(bytes));
    PaddingComesOff(Text(Sextets(bytes)), Padding(bytes));
    TextReads(Sextets(bytes));
  }

  lemma TextIs(digits: seq<Sextet>, s: string)
    requires |s| == |digits| && forall i | 0 <= i < |s| :: s[i] == Digit(digits[i])
    ensures Text(digits) == s
  {
  }

  lemma OneByte(b: Byte)
    ensures Sextets([b]) == [b / 4, 16 * (b % 4)]
  {
    QuotientAndRemainder(64, 1024 * b, 0);
    QuotientAndRemainder(64, 16 * b, 0);
    assert 65536 * b == 64 * (1024 * b) && 1024 * b == 64 * (16 * b);
    assert Group([b]) == 65536 * b;
    assert 16 * b == 64 * (b / 4) + 16 * (b % 4);
    QuotientAndRemainder(64, b / 4, 16 * (b % 4));
  }

  lemma ThreeBytes(a: Byte, b: Byte, c: Byte)
    ensures Sextets([a, b, c]) == [a / 4, 16 * (a % 4) + b / 16, 4 * (b % 16) + c / 64, c % 64]
  {
    var g := Join3(a, b, c);
    assert g == 64 * (1024 * a + 4 * b + c / 64) + c % 64;
    QuotientAndRemainder(64, 1024 * a + 4 * b + c / 64, c % 64);
    assert 1024 * a + 4 * b + c / 64 == 64 * (16 * a + b / 16) + (4 * (b % 16) + c / 64);
    QuotientAndRemainder(64, 16 * a + b / 16, 4 * (b % 16) + c / 64);
    assert 16 * a + b / 16 == 64 * (a / 4) + (16 * (a % 4) + b / 16);
    QuotientAndRemainder(64, a / 4, 16 * (a % 4) + b / 16);
    assert [a, b, c][..3] == [a, b, c] && Group([a, b, c]) == g && Sextets([a, b, c][3..]) == [];
  }

  /** The test vectors `f` and `foo` of RFC 4648, section 10. */
  lemma TestVectors()
    ensures Encode([0x66]) == "Zg==" && Encode([0x66, 0x6F, 0x6F]) == "Zm9v"
  {
    hide Text, Sextets;
    OneByte(0x66);
    TextIs([25, 32], "Zg");
    ThreeBytes(0x66, 0x6F, 0x6F);
    TextIs([25, 38, 61, 47], "Zm9v");
  }

  // ---- Workbooks ----

  /** `String.fromCharCode(...bytes)` */
  function Binary(bytes: seq<Byte>): (s: string)
    ensures |s| == |bytes| && forall i | 0 <= i < |s| :: s[i] == bytes[i] as char
  {
    seq(|bytes|, i requires 0 <= i < |bytes| => bytes[i] as char)
  }

  function Codes(s: string): (bytes: Option<seq<Byte>>)
    ensures bytes.Some? <==> forall i | 0 <= i < |s| :: s[i] as int < 256
    ensures bytes.Some? ==> |bytes.value| == |s| && forall i | 0 <= i < |s| :: bytes.value[i] == s[i] as int
  {
    if s == [] then Some([])
    else
      var front :- Codes(s[..|s| - 1]);
      if s[|s| - 1] as int < 256 then Some(front + [s[|s| - 1] as int]) else None
  }

  /** The browser's `btoa`: None is its InvalidCharacterError. */
  function Btoa(s: string): Option<string> {
    var bytes :- Codes(s);
    Some(Encode(bytes))
  }

  /** The browser's `atob`. */
  function Atob(s: string): Option<string> {
    var bytes :- Decode(s);
    Some(Binary(bytes))
  }

  const CHUNK := 0x8000

  /** `toBase64`: chunk by chunk into a binary string, then encoded at once. */
  method ToBase64(bytes: array<Byte>) returns (b64: Option<string>)
    ensures b64 == Some(Encode(bytes[..]))
  {
    var out := "";
    var i := 0;
    while i < bytes.Length
      invariant out == Binary(bytes[..if i < bytes.Length then i else bytes.Length])
    {
      var end := if i + CHUNK < bytes.Length then i + CHUNK else bytes.Length;
      out := out + Binary(bytes[i..end]);
      i := i + CHUNK;
    }
    assert bytes[..bytes.Length] == bytes[..];
    assert Codes(out).value == bytes[..];
    b64 := Btoa(out);
  }

  /** `fromBase64`: None is the exception `atob` throws. */
  method FromBase64(b64: string) returns (bytes: Option<array<Byte>>)
    ensures if Decode(b64).Some? then bytes.Some? && bytes.value[..] == Decode(b64).value else bytes == None
    ensures bytes.Some? ==> fresh(bytes.value)
  {
    var decoded := Atob(b64);
    if decoded == None {
      return None;
    }
    var s := decoded.value;
    var out := new Byte[|s|];
    for i := 0 to |s|
      invariant forall j | 0 <= j < i :: out[j] == s[j] as int
    {
      out[i] := s[i] as int;
    }
    bytes := Some(out);
    assert out[..] == Decode(b64).value;
  }

  /** What is saved is loaded again, on either side of the chunk size. */
  method SaveAndLoad(bytes: array<Byte>) returns (loaded: array<Byte>)
    ensures loaded[..] == bytes[..]
  {
    var b64 := ToBase64(bytes);
    DecodeUndoesEncode(bytes[..]);
    var again := FromBase64(b64.value);
    loaded := again.value;
  }

  // ---- Embed tokens ----

  function Standard(c: char): char {
    if c == '-' then '+' else if c == '_' then '/' else c
  }

  /** `part.replace(/-/g, '+').replace(/_/g, '/')` */
  function Replaced(part: string): (s: string)
    ensures |s| == |part| && forall i | 0 <= i < |s| :: s[i] == Standard(part[i])
  {
    seq(|part|, i requires 0 <= i < |part| => Standard(part[i]))
  }

  /** The text given to `atob`. */
  function Translated(part: string): string {
    Replaced(part) + "==="[(|part| + 3) % 4..]
  }

  lemma StandardUrlDigit(v: Sextet)
    ensures Standard(UrlDigit(v)) == Digit(v)
  {
  }

  lemma SlicedPadding(digits: nat, padding: string)
    requires Fits(digits % 4, padding)
    ensures "==="[(digits + 3) % 4..] == padding
  {
    assert "==="[3..] == "" && "==="[2..] == "=" && "==="[1..] == "==";
    assert (digits + 3) % 4 == (digits % 4 + 3) % 4;
  }

  /** Every unpadded base64url text becomes exactly the padded base64 text of the same bytes. */
  lemma TranslatedIsPaddedBase64(bytes: seq<Byte>)
    ensures Translated(EncodeUrl(bytes)) == Encode(bytes)
  {
    hide Sextets, Text, UrlText, Padding;
    var digits := Sextets(bytes);
    forall i | 0 <= i < |digits|
      ensures Replaced(UrlText(digits))[i] == Text(digits)[i]
    {
      StandardUrlDigit(digits[i]);
    }
    assert Replaced(UrlText(digits)) == Text(digits);
    SextetsRoundTrip(bytes);
    SlicedPadding(|digits|, Padding(bytes));
  }

  /** So a token's claims are read back as the bytes that were signed. */
  lemma TokenPartIsRead(bytes: seq<Byte>)
    ensures Decode(Translated(EncodeUrl(bytes))) == Some(bytes)
  {
    TranslatedIsPaddedBase64(bytes);
    DecodeUndoesEncode(bytes);
  }
}
