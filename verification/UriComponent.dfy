/** ECMAScript's `encodeURIComponent` and `decodeURIComponent`, on strings of Unicode scalar values. */
module UriComponent {
  import opened Prelude

  // ----- UTF-8, RFC 3629 section 3 -----

  function Octets(c: char): seq<Octet> {
    var n := c as int;
    if n < 0x80 then [n]
    else if n < 0x800 then [0xC0 + n / 0x40, Trail(n)]
    else if n < 0x10000 then [0xE0 + n / 0x40 / 0x40, Trail(n / 0x40), Trail(n)]
    else [0xF0 + n / 0x40 / 0x40 / 0x40, Trail(n / 0x40 / 0x40), Trail(n / 0x40), Trail(n)]
  }

  function Trail(n: nat): Octet {
    0x80 + n % 0x40
  }

  predicate IsTrail(o: Octet) {
    0x80 <= o < 0xC0
  }

  /** How many octets a character with this first octet has; 0 when no character has it. */
  function Length(first: Octet): nat {
    if first < 0x80 then 1
    else if first < 0xC0 then 0
    else if first < 0xE0 then 2
    else if first < 0xF0 then 3
    else if first < 0xF8 then 4
    else 0
  }

  /** The payload bits of a first octet. */
  function Lead(first: Octet): nat
    requires Length(first) > 0
  {
    match Length(first)
    case 1 => first
    case 2 => first - 0xC0
    case 3 => first - 0xE0
    case _ => first - 0xF0
  }

  /** ... followed by those of a further one. */
  function Append(bits: nat, o: Octet): nat
    requires IsTrail(o)
  {
    bits * 0x40 + (o - 0x80) as nat
  }

  function Bits(o: seq<Octet>): nat
    requires WellFormed(o)
  {
    match |o|
    case 1 => Lead(o[0])
    case 2 => Append(Lead(o[0]), o[1])
    case 3 => Append(Append(Lead(o[0]), o[1]), o[2])
    case _ => Append(Append(Append(Lead(o[0]), o[1]), o[2]), o[3])
  }

  predicate WellFormed(o: seq<Octet>) {
    1 <= |o| <= 4 && Length(o[0]) == |o| && forall i :: 1 <= i < |o| ==> IsTrail(o[i])
  }

  predicate IsScalar(n: nat) {
    n < 0xD800 || 0xE000 <= n < 0x110000
  }

  /** The character these octets encode: no overlong form, no surrogate. */
  function FromOctets(o: seq<Octet>): Option<char> {
    if WellFormed(o) then
      var n := Bits(o);
      if IsScalar(n) && Octets(n as char) == o then Some(n as char) else None
    else None
  }

  lemma AppendTrail(n: nat)
    ensures IsTrail(Trail(n)) && Append(n / 0x40, Trail(n)) == n
  {
  }

  lemma BitsOfOctets(c: char)
    ensures WellFormed(Octets(c)) && Bits(Octets(c)) == c as int
  {
    var n: nat := c as int;
    AppendTrail(n);
    AppendTrail(n / 0x40);
    AppendTrail(n / 0x40 / 0x40);
  }

  lemma OctetsRoundTrip(c: char)
    ensures FromOctets(Octets(c)) == Some(c)
  {
    BitsOfOctets(c);
  }

  // ----- Percent coding -----

  predicate Unreserved(c: char) {
    || 'A' <= c <= 'Z' || 'a' <= c <= 'z' || '0' <= c <= '9'
    || c == '-' || c == '_' || c == '.' || c == '!' || c == '~' || c == '*' || c == '\'' || c == '(' || c == ')'
  }

  function HexDigit(n: nat): char
    requires n < 16
  {
    if n < 10 then '0' + n as char else 'A' + (n - 10) as char
  }

  function HexValue(c: char): Option<nat> {
    if '0' <= c <= '9' then Some(c as int - '0' as int)
    else if 'A' <= c <= 'F' then Some(c as int - 'A' as int + 10)
    else if 'a' <= c <= 'f' then Some(c as int - 'a' as int + 10)
    else None
  }

  function Percent(o: Octet): string {
    ['%', HexDigit(o / 16), HexDigit(o % 16)]
  }

  function PercentAll(o: seq<Octet>): string {
    if o == [] then "" else Percent(o[0]) + PercentAll(o[1..])
  }

  function EncodeChar(c: char): string {
    if Unreserved(c) then [c] else PercentAll(Octets(c))
  }

  function Encode(s: string): string {
    if s == "" then "" else EncodeChar(s[0]) + Encode(s[1..])
  }

  /** The octet written at the front, if one is. */
  function ReadOctet(s: string): Option<Octet> {
    if |s| >= 3 && s[0] == '%' && HexValue(s[1]).Some? && HexValue(s[2]).Some?
    then Some(HexDigits(HexValue(s[1]).value, HexValue(s[2]).value)) else None
  }

  function HexDigits(high: nat, low: nat): Octet {
    if high < 16 && low < 16 then high * 16 + low else 0
  }

  function ReadOctets(s: string, count: nat): Option<seq<Octet>> {
    if count == 0 then Some([])
    else if ReadOctet(s) == None || ReadOctets(s[3..], count - 1) == None then None
    else Some([ReadOctet(s).value] + ReadOctets(s[3..], count - 1).value)
  }

  /** `None` where the source's call throws. */
  function Decode(s: string): Option<string>
    decreases |s|
  {
    if s == "" then Some("")
    else if s[0] != '%' then Prepend(s[0], Decode(s[1..]))
    else match ReadOctet(s)
      case None => None
      case Some(first) =>
        var count := Length(first);
        match ReadOctets(s, count)
        case None => None
        case Some(octets) =>
          if count == 0 || |s| < 3 * count then None
          else match FromOctets(octets)
            case None => None
            case Some(c) => Prepend(c, Decode(s[3 * count..]))
  }

  function Prepend(c: char, rest: Option<string>): Option<string> {
    if rest.Some? then Some([c] + rest.value) else None
  }

  lemma ReadPercent(o: Octet, rest: string)
    ensures ReadOctet(Percent(o) + rest) == Some(o)
  {
  }

  lemma ReadNext(o: Octet, more: string, octets: seq<Octet>)
    requires ReadOctets(more, |octets|) == Some(octets)
    ensures ReadOctets(Percent(o) + more, |octets| + 1) == Some([o] + octets)
  {
    ReadPercent(o, more);
    assert (Percent(o) + more)[3..] == more;
  }

  lemma {:induction false} ReadAll(octets: seq<Octet>, rest: string)
    ensures ReadOctets(PercentAll(octets) + rest, |octets|) == Some(octets)
    decreases |octets|
  {
    if octets != [] {
      ReadAll(octets[1..], rest);
      ReadNext(octets[0], PercentAll(octets[1..]) + rest, octets[1..]);
      assert PercentAll(octets) + rest == Percent(octets[0]) + (PercentAll(octets[1..]) + rest);
      assert [octets[0]] + octets[1..] == octets;
    }
  }

  lemma {:induction false} PercentAllLength(octets: seq<Octet>)
    ensures |PercentAll(octets)| == 3 * |octets|
    decreases |octets|
  {
    if octets != [] {
      PercentAllLength(octets[1..]);
    }
  }

  lemma DecodeChar(c: char, rest: string)
    ensures Decode(EncodeChar(c) + rest) == Prepend(c, Decode(rest))
  {
    if Unreserved(c) {
      assert ([c] + rest)[1..] == rest;
    } else {
      var octets := Octets(c);
      var s := PercentAll(octets) + rest;
      BitsOfOctets(c);
      OctetsRoundTrip(c);
      ReadAll(octets, rest);
      PercentAllLength(octets);
      assert PercentAll(octets) == Percent(octets[0]) + PercentAll(octets[1..]);
      assert s == Percent(octets[0]) + (PercentAll(octets[1..]) + rest);
      ReadPercent(octets[0], PercentAll(octets[1..]) + rest);
      assert s[3 * |octets|..] == rest;
    }
  }

  /** Decoding undoes encoding, whatever the text. */
  lemma {:induction false} DecodeEncode(s: string)
    ensures Decode(Encode(s)) == Some(s)
    decreases |s|
  {
    if s != "" {
      DecodeChar(s[0], Encode(s[1..]));
      DecodeEncode(s[1..]);
      assert [s[0]] + s[1..] == s;
    }
  }

  predicate Encoded(c: char) {
    Unreserved(c) || c == '%'
  }

  lemma {:induction false} PercentAllIsEncoded(o: seq<Octet>)
    ensures forall i :: 0 <= i < |PercentAll(o)| ==> Encoded(PercentAll(o)[i])
    decreases |o|
  {
    if o != [] {
      PercentAllIsEncoded(o[1..]);
    }
  }

  /** An encoded text has no character that means anything in a path, and is empty only for an empty text. */
  lemma {:induction false} EncodeIsOpaque(s: string)
    ensures forall i :: 0 <= i < |Encode(s)| ==> Encoded(Encode(s)[i])
    ensures s != "" ==> Encode(s) != ""
    decreases |s|
  {
    if s != "" {
      PercentAllIsEncoded(Octets(s[0]));
      PercentAllLength(Octets(s[0]));
      EncodeIsOpaque(s[1..]);
    }
  }

  /** Identities and base64url tokens are printed as they are. */
  lemma {:induction false} EncodeFixesUnreserved(s: string)
    requires forall i :: 0 <= i < |s| ==> Unreserved(s[i])
    ensures Encode(s) == s
    decreases |s|
  {
    if s != "" {
      EncodeFixesUnreserved(s[1..]);
      assert [s[0]] + s[1..] == s;
    }
  }

  /** Characters other than the percent sign stand for themselves. */
  lemma {:induction false} PlainDecodes(a: string, rest: string)
    requires forall i :: 0 <= i < |a| ==> a[i] != '%'
    ensures Decode(a + rest) == if Decode(rest).Some? then Some(a + Decode(rest).value) else None
    decreases |a|
  {
    if a == "" {
      assert a + rest == rest;
      assert Decode(rest).Some? ==> a + Decode(rest).value == Decode(rest).value;
    } else {
      PlainDecodes(a[1..], rest);
      assert (a + rest)[1..] == a[1..] + rest;
      assert Decode(rest).Some? ==> [a[0]] + (a[1..] + Decode(rest).value) == a + Decode(rest).value;
    }
  }

  /** A percent sign without two hexadecimal digits after it is an error, whatever comes before and after. */
  lemma BrokenEscapeFails(a: string, rest: string)
    requires forall i :: 0 <= i < |a| ==> a[i] != '%'
    requires |rest| < 2 || HexValue(rest[0]).None? || HexValue(rest[1]).None?
    ensures Decode(a + ("%" + rest)) == None
  {
    PlainDecodes(a, "%" + rest);
    assert |rest| >= 2 ==> ("%" + rest)[1] == rest[0] && ("%" + rest)[2] == rest[1];
  }

  lemma OneOctet(a: Octet)
    ensures PercentAll([a]) == Percent(a)
  {
    assert [a][1..] == [] && Percent(a) + "" == Percent(a);
  }

  lemma TwoOctets(a: Octet, b: Octet)
    ensures PercentAll([a, b]) == Percent(a) + Percent(b)
  {
    assert [a, b][1..] == [b];
    OneOctet(b);
  }

  lemma ThreeOctets(a: Octet, b: Octet, c: Octet)
    ensures PercentAll([a, b, c]) == Percent(a) + (Percent(b) + Percent(c))
  {
    assert [a, b, c][1..] == [b, c];
    TwoOctets(b, c);
  }

  lemma EncodeOne(c: char)
    ensures Encode([c]) == EncodeChar(c)
  {
    assert [c][1..] == "" && EncodeChar(c) + "" == EncodeChar(c);
  }

  /** An ASCII character that is not left alone becomes one octet, with capital digits. */
  lemma AsciiVector(c: char)
    requires !Unreserved(c) && c as int < 0x80
    ensures Encode([c]) == Percent(c as int)
  {
    EncodeOne(c);
    OneOctet(c as int);
  }

  lemma AsciiVectors()
    ensures Encode("/") == "%2F" && Encode(" ") == "%20" && Encode("%") == "%25" && Encode(":") == "%3A"
  {
    AsciiVector('/');
    AsciiVector(' ');
    AsciiVector('%');
    AsciiVector(':');
  }

  /** Characters with two and three octets in UTF-8. */
  lemma WideVectors()
    ensures Encode(['\U{E9}']) == "%C3%A9"
    ensures Encode(['\U{20AC}']) == "%E2%82%AC"
  {
    EncodeOne('\U{E9}');
    assert Octets('\U{E9}') == [0xC3, 0xA9];
    TwoOctets(0xC3, 0xA9);
    assert Percent(0xC3) == "%C3" && Percent(0xA9) == "%A9";
    EncodeOne('\U{20AC}');
    assert Octets('\U{20AC}') == [0xE2, 0x82, 0xAC];
    ThreeOctets(0xE2, 0x82, 0xAC);
    assert Percent(0xE2) == "%E2" && Percent(0x82) == "%82" && Percent(0xAC) == "%AC";
  }

  /** Punctuation that is left alone. */
  lemma PlainVector()
    ensures Encode("-_.!~*'()") == "-_.!~*'()"
  {
    EncodeFixesUnreserved("-_.!~*'()");
  }
}
