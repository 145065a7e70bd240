/** The base64url encoding without padding: section 5 of RFC 4648, and the decoder of Node's `Buffer`, which
    also takes the two other characters of plain base64 and skips what it does not know. */
module Base64Url {
  import opened Prelude

  type Sextet = n: nat | n < 64

  function Letter(n: Sextet): char {
    if n < 26 then 'A' + n as char
    else if n < 52 then 'a' + (n - 26) as char
    else if n < 62 then '0' + (n - 52) as char
    else if n == 62 then '-'
    else '_'
  }

  function Value(c: char): Option<Sextet> {
    if 'A' <= c <= 'Z' then Some(c as int - 'A' as int)
    else if 'a' <= c <= 'z' then Some(c as int - 'a' as int + 26)
    else if '0' <= c <= '9' then Some(c as int - '0' as int + 52)
    else if c == '-' || c == '+' then Some(62)
    else if c == '_' || c == '/' then Some(63)
    else None
  }

  // ----- Three octets are four sextets -----

  function High(a: Octet): Sextet { a / 4 }
  function Join1(a: Octet, b: Octet): Sextet { a % 4 * 16 + b / 16 }
  function Join2(b: Octet, c: Octet): Sextet { b % 16 * 4 + c / 64 }
  function Low(c: Octet): Sextet { c % 64 }

  function Sextets(b: seq<Octet>): seq<Sextet> {
    if b == [] then []
    else if |b| == 1 then [High(b[0]), Join1(b[0], 0)]
    else if |b| == 2 then [High(b[0]), Join1(b[0], b[1]), Join2(b[1], 0)]
    else [High(b[0]), Join1(b[0], b[1]), Join2(b[1], b[2]), Low(b[2])] + Sextets(b[3..])
  }

  function First(s: Sextet, t: Sextet): Octet { s * 4 + t / 16 }
  function Second(t: Sextet, u: Sextet): Octet { t % 16 * 16 + u / 4 }
  function Third(u: Sextet, v: Sextet): Octet { u % 4 * 64 + v }

  function Octets(s: seq<Sextet>): seq<Octet> {
    if |s| < 2 then []
    else if |s| == 2 then [First(s[0], s[1])]
    else if |s| == 3 then [First(s[0], s[1]), Second(s[1], s[2])]
    else [First(s[0], s[1]), Second(s[1], s[2]), Third(s[2], s[3])] + Octets(s[4..])
  }

  lemma GroupRoundTrip(a: Octet, b: Octet, c: Octet)
    ensures First(High(a), Join1(a, b)) == a
    ensures Second(Join1(a, b), Join2(b, c)) == b
    ensures Third(Join2(b, c), Low(c)) == c
  {
  }

  lemma OctetsOfShort(s: Sextet, t: Sextet, u: Sextet)
    ensures Octets([s, t]) == [First(s, t)]
    ensures Octets([s, t, u]) == [First(s, t), Second(t, u)]
  {
  }

  lemma OneRoundTrip(a: Octet)
    ensures Octets(Sextets([a])) == [a]
  {
    OctetsOfShort(High(a), Join1(a, 0), 0);
    assert First(High(a), Join1(a, 0)) == a by { GroupRoundTrip(a, 0, 0); }
  }

  lemma TwoRoundTrip(a: Octet, b: Octet)
    ensures Octets(Sextets([a, b])) == [a, b]
  {
    OctetsOfShort(High(a), Join1(a, b), Join2(b, 0));
    GroupRoundTrip(a, b, 0);
  }

  lemma OctetsOfGroup(s: Sextet, t: Sextet, u: Sextet, v: Sextet, rest: seq<Sextet>)
    ensures Octets([s, t, u, v] + rest) == [First(s, t), Second(t, u), Third(u, v)] + Octets(rest)
  {
    assert ([s, t, u, v] + rest)[4..] == rest;
  }

  lemma {:induction false} SextetsRoundTrip(b: seq<Octet>)
    ensures Octets(Sextets(b)) == b
    decreases |b|
  {
    if |b| == 1 {
      OneRoundTrip(b[0]);
      assert b == [b[0]];
    } else if |b| == 2 {
      TwoRoundTrip(b[0], b[1]);
      assert b == [b[0], b[1]];
    } else if |b| > 2 {
      var x, y, z := b[0], b[1], b[2];
      SextetsRoundTrip(b[3..]);
      OctetsOfGroup(High(x), Join1(x, y), Join2(y, z), Low(z), Sextets(b[3..]));
      GroupRoundTrip(x, y, z);
      assert [x, y, z] + b[3..] == b;
    }
  }

  // ----- Text -----

  function Letters(s: seq<Sextet>): string {
    seq(|s|, i requires 0 <= i < |s| => Letter(s[i]))
  }

  function Values(s: string): seq<Sextet> {
    if s == "" then []
    else (if Value(s[0]).Some? then [Value(s[0]).value] else []) + Values(s[1..])
  }

  function Encode(b: seq<Octet>): string {
    Letters(Sextets(b))
  }

  function Decode(s: string): seq<Octet> {
    Octets(Values(s))
  }

  lemma {:induction false} ValuesOfLetters(s: seq<Sextet>)
    ensures Values(Letters(s)) == s
    decreases |s|
  {
    if s != [] {
      assert Letters(s)[1..] == Letters(s[1..]);
      assert Value(Letter(s[0])) == Some(s[0]);
      ValuesOfLetters(s[1..]);
      assert [s[0]] + s[1..] == s;
    }
  }

  lemma DecodeEncode(b: seq<Octet>)
    ensures Decode(Encode(b)) == b
  {
    ValuesOfLetters(Sextets(b));
    SextetsRoundTrip(b);
  }

  /** Nothing a token or a path is split at; empty only for no octets. */
  lemma EncodeIsPlain(b: seq<Octet>)
    ensures forall i :: 0 <= i < |Encode(b)| ==> Encode(b)[i] != '.' && Encode(b)[i] != '/'
    ensures Encode(b) == "" <==> b == []
  {
  }

  /** The test vectors of section 10 of RFC 4648, without padding, and the two letters of this alphabet. */
  lemma TestVectors()
    ensures Encode([]) == "" && Encode([0x66]) == "Zg" && Encode([0x66, 0x6F]) == "Zm8"
    ensures Encode([0x66, 0x6F, 0x6F]) == "Zm9v"
    ensures Encode([0x66, 0x6F, 0x6F, 0x62, 0x61, 0x72]) == "Zm9vYmFy"
    ensures Encode([0xFB, 0xFF]) == "-_8"
  {
    assert Sextets([0x66, 0x6F, 0x6F]) == [25, 38, 61, 47] + Sextets([]);
    assert [0x66, 0x6F, 0x6F, 0x62, 0x61, 0x72][3..] == [0x62, 0x61, 0x72];
    assert Sextets([0x62, 0x61, 0x72]) == [24, 38, 5, 50] + Sextets([]);
    assert Sextets([0x66, 0x6F, 0x6F, 0x62, 0x61, 0x72]) == [25, 38, 61, 47] + Sextets([0x62, 0x61, 0x72]);
  }
}
