/** The JSON text of a proxy token's payload: an environment in which proxy tokens can be issued. */
module PayloadJson {
  import opened Prelude
  import Uri = UriComponent
  import opened ProxyPath
  import opened ProxyToken

  // ----- Strings -----

  const BACKSLASH := '\\'

  /** `JSON.stringify` of one character of a string. */
  function EscapeChar(c: char): string {
    if c == '"' || c == BACKSLASH then [BACKSLASH, c]
    else if c == '\U{08}' then [BACKSLASH, 'b']
    else if c == '\U{0C}' then [BACKSLASH, 'f']
    else if c == '\n' then [BACKSLASH, 'n']
    else if c == '\r' then [BACKSLASH, 'r']
    else if c == '\t' then [BACKSLASH, 't']
    else if c as int < 0x20 then [BACKSLASH, 'u', '0', '0', HexDigit(c as int / 16), HexDigit(c as int % 16)]
    else [c]
  }

  function HexDigit(n: nat): char
    requires n < 16
  {
    if n < 10 then '0' + n as char else 'a' + (n - 10) as char
  }

  function Escape(s: string): string {
    if s == "" then "" else EscapeChar(s[0]) + Escape(s[1..])
  }

  lemma HexDigitsDiffer(a: nat, b: nat)
    requires a < 16 && b < 16 && HexDigit(a) == HexDigit(b)
    ensures a == b
  {
  }

  /** No escaped character starts another one. */
  lemma EscapesDiffer(a: char, x: string, b: char, y: string)
    requires EscapeChar(a) + x == EscapeChar(b) + y
    ensures a == b && x == y
  {
    var s, t := EscapeChar(a), EscapeChar(b);
    assert (s + x)[0] == s[0] && (t + y)[0] == t[0];
    if |s| > 1 && |t| > 1 {
      assert (s + x)[1] == s[1] && (t + y)[1] == t[1];
      if |s| == 6 && |t| == 6 {
        assert (s + x)[4] == s[4] && (t + y)[4] == t[4] && (s + x)[5] == s[5] && (t + y)[5] == t[5];
        HexDigitsDiffer(a as int / 16, b as int / 16);
        HexDigitsDiffer(a as int % 16, b as int % 16);
      }
    }
    assert a == b;
    assert (s + x)[|s|..] == x && (t + y)[|t|..] == y;
  }

  lemma EscapeIsNoQuote(c: char)
    ensures EscapeChar(c) != "" && EscapeChar(c)[0] != '"'
  {
  }

  lemma QuoteIsNoEscape(x: string, t: string, q: string)
    requires t != ""
    ensures Escape("") + ("\"" + x) != Escape(t) + q
  {
    EscapeIsNoQuote(t[0]);
    assert (Escape("") + ("\"" + x))[0] == '"';
    assert (Escape(t) + q)[0] == EscapeChar(t[0])[0];
  }

  lemma EscapeFirst(s: string, p: string)
    requires s != ""
    ensures Escape(s) + p == EscapeChar(s[0]) + (Escape(s[1..]) + p)
  {
  }

  /** The first quote that is not escaped ends a string. */
  lemma {:induction false} QuoteEnds(s: string, x: string, t: string, y: string)
    requires Escape(s) + ("\"" + x) == Escape(t) + ("\"" + y)
    ensures s == t && x == y
    decreases |s|
  {
    if s == "" && t == "" {
      SameAfter("", "\"" + x, "\"" + y);
      SameAfter("\"", x, y);
    } else if s == "" {
      QuoteIsNoEscape(x, t, "\"" + y);
    } else if t == "" {
      QuoteIsNoEscape(y, s, "\"" + x);
    } else {
      EscapeFirst(s, "\"" + x);
      EscapeFirst(t, "\"" + y);
      EscapesDiffer(s[0], Escape(s[1..]) + ("\"" + x), t[0], Escape(t[1..]) + ("\"" + y));
      QuoteEnds(s[1..], x, t[1..], y);
      assert s == [s[0]] + s[1..] && t == [t[0]] + t[1..];
    }
  }

  // ----- Objects -----

  /** String members, each behind its label, and what comes after them. */
  function Members(labels: seq<string>, values: seq<string>, last: string): string
    requires |labels| == |values|
  {
    if labels == [] then last
    else labels[0] + (Escape(values[0]) + ("\"" + Members(labels[1..], values[1..], last)))
  }

  lemma SameAfter(a: string, x: string, y: string)
    requires a + x == a + y
    ensures x == y
  {
    assert (a + x)[|a|..] == x && (a + y)[|a|..] == y;
  }

  lemma {:induction false} MembersDiffer(labels: seq<string>, v: seq<string>, x: string, w: seq<string>, y: string)
    requires |labels| == |v| == |w| && Members(labels, v, x) == Members(labels, w, y)
    ensures v == w && x == y
    decreases |labels|
  {
    if labels != [] {
      var r, q := Members(labels[1..], v[1..], x), Members(labels[1..], w[1..], y);
      SameAfter(labels[0], Escape(v[0]) + ("\"" + r), Escape(w[0]) + ("\"" + q));
      QuoteEnds(v[0], r, w[0], q);
      MembersDiffer(labels[1..], v[1..], x, w[1..], y);
      assert v == [v[0]] + v[1..] && w == [w[0]] + w[1..];
    }
  }

  function Integer(n: int): string {
    if n < 0 then "-" + Decimal(-n) else Decimal(n)
  }

  lemma IntegerSign(n: int)
    ensures Integer(n) != "" && (Integer(n)[0] == '-' <==> n < 0)
  {
    NumberOfDecimal(if n < 0 then -n else n);
    assert n >= 0 ==> Digit(Integer(n)[0]);
  }

  lemma IntegersDiffer(m: int, n: int)
    requires Integer(m) == Integer(n)
    ensures m == n
  {
    IntegerSign(m);
    IntegerSign(n);
    NumberOfDecimal(if m < 0 then -m else m);
    NumberOfDecimal(if n < 0 then -n else n);
    if m < 0 {
      SameAfter("-", Decimal(-m), Decimal(-n));
    }
  }

  const LABELS := ["{\"sub\":\"", ",\"aud\":\"", ",\"sandboxId\":\"", ",\"sandbox\":\"", ",\"runtimeId\":\""]
  const EXP := ",\"exp\":"

  function Value(f: Field): string {
    if f.Str? then f.text else ""
  }

  function Values(c: Claims): (r: seq<string>)
    ensures |r| == 5
  {
    [Value(c.sub), Value(c.aud), Value(c.sandboxId), Value(c.sandbox), Value(c.runtimeId)]
  }

  function Expiry(c: Claims): int {
    if c.exp.Num? then c.exp.number.Floor else 0
  }

  /** `JSON.stringify` of a payload. */
  function Print(c: Claims): string {
    Members(LABELS, Values(c), EXP + (Integer(Expiry(c)) + "}"))
  }

  lemma PrintsDiffer(g: Grant, h: Grant)
    requires Print(ClaimsOf(g)) == Print(ClaimsOf(h))
    ensures ClaimsOf(g) == ClaimsOf(h)
  {
    var c, d := ClaimsOf(g), ClaimsOf(h);
    var m, n := Integer(Expiry(c)), Integer(Expiry(d));
    MembersDiffer(LABELS, Values(c), EXP + (m + "}"), Values(d), EXP + (n + "}"));
    SameAfter(EXP, m + "}", n + "}");
    assert (m + "}")[..|m + "}"| - 1] == m && (n + "}")[..|n + "}"| - 1] == n;
    IntegersDiffer(Expiry(c), Expiry(d));
    assert Values(c)[0] == g.sandboxId && Values(c)[3] == g.sandboxName && Values(c)[4] == g.runtimeId;
    assert Values(d)[0] == h.sandboxId && Values(d)[3] == h.sandboxName && Values(d)[4] == h.runtimeId;
  }

  // ----- Bytes -----

  function Utf8(s: string): seq<Octet> {
    if s == "" then [] else Uri.Octets(s[0]) + Utf8(s[1..])
  }

  lemma CharactersDiffer(a: char, x: seq<Octet>, b: char, y: seq<Octet>)
    requires Uri.Octets(a) + x == Uri.Octets(b) + y
    ensures a == b && x == y
  {
    var s, t := Uri.Octets(a), Uri.Octets(b);
    Uri.BitsOfOctets(a);
    Uri.BitsOfOctets(b);
    assert (s + x)[0] == s[0] && (t + y)[0] == t[0];
    assert |s| == |t|;
    assert (s + x)[..|s|] == s && (t + y)[..|t|] == t;
    assert (s + x)[|s|..] == x && (t + y)[|t|..] == y;
  }

  lemma {:induction false} Utf8Differs(s: string, t: string)
    requires Utf8(s) == Utf8(t)
    ensures s == t
    decreases |s|
  {
    if s != "" {
      Uri.BitsOfOctets(s[0]);
    }
    if t != "" {
      Uri.BitsOfOctets(t[0]);
    }
    if s != "" && t != "" {
      CharactersDiffer(s[0], Utf8(s[1..]), t[0], Utf8(t[1..]));
      Utf8Differs(s[1..], t[1..]);
      assert s == [s[0]] + s[1..] && t == [t[0]] + t[1..];
    }
  }

  function Stringify(c: Claims): seq<Octet> {
    Utf8(Print(c))
  }

  /** Reads back what was printed, and nothing else. */
  ghost function Parse(bytes: seq<Octet>): Option<Claims> {
    if g: Grant :| Stringify(ClaimsOf(g)) == bytes then Some(ClaimsOf(g)) else None
  }

  lemma ParseStringify(g: Grant)
    ensures Parse(Stringify(ClaimsOf(g))) == Some(ClaimsOf(g))
  {
    forall h: Grant | Stringify(ClaimsOf(h)) == Stringify(ClaimsOf(g)) ensures ClaimsOf(h) == ClaimsOf(g) {
      Utf8Differs(Print(ClaimsOf(h)), Print(ClaimsOf(g)));
      PrintsDiffer(h, g);
    }
  }

  lemma StringifyIsNotEmpty(c: Claims)
    ensures Stringify(c) != []
  {
    assert Print(c)[0] == '{';
    Uri.BitsOfOctets('{');
  }

  /** With real JSON text, every keyed hash makes a sound environment: the hypothesis about tokens can be met. */
  lemma JsonIsSound(mac: string -> seq<Octet>)
    requires forall p :: mac(p) != []
    ensures Sound(Env(mac, Stringify, Parse))
  {
    var env := Env(mac, Stringify, Parse);
    forall g: Grant
      ensures env.stringify(ClaimsOf(g)) != [] && env.parse(env.stringify(ClaimsOf(g))) == Some(ClaimsOf(g))
    {
      StringifyIsNotEmpty(ClaimsOf(g));
      ParseStringify(g);
    }
  }
}
